/**
 * The help dialog (`help.py`): word wrapping with a hard break for tokens wider than
 * a line, the dialog's layout, its scroll state and its keyboard and mouse handling,
 * and the test that picks out the signature line. The font appears only as a `width`
 * function from text to pixels and a line height.
 */
module Help {
  import opened Wrappers
  import opened Text
  import opened Util
  import opened Ui

  // ---------------------------------------------------------------------------
  // _wrap_text

  function Concat(ss: seq<string>): string {
    if ss == [] then [] else ss[0] + Concat(ss[1..])
  }

  lemma {:induction false} ConcatAppend(a: seq<string>, b: seq<string>)
    ensures Concat(a + b) == Concat(a) + Concat(b)
  {
    if a != [] {
      assert (a + b)[1..] == a[1..] + b;
      ConcatAppend(a[1..], b);
    } else {
      assert a + b == b;
    }
  }

  /** The text with its plain spaces taken out. */
  function Unspaced(s: string): string {
    if s == [] then [] else (if s[0] == ' ' then [] else [s[0]]) + Unspaced(s[1..])
  }

  lemma {:induction false} UnspacedAppend(a: string, b: string)
    ensures Unspaced(a + b) == Unspaced(a) + Unspaced(b)
  {
    if a != [] {
      assert (a + b)[1..] == a[1..] + b;
      UnspacedAppend(a[1..], b);
    } else {
      assert a + b == b;
    }
  }

  /** Joining with spaces adds nothing but spaces. */
  lemma {:induction false} UnspacedJoin(parts: seq<string>)
    ensures Unspaced(Join(parts, " ")) == Unspaced(Concat(parts))
  {
    if |parts| == 1 {
      assert parts[1..] == [];
      assert Concat(parts) == parts[0] + [];
      assert parts[0] + [] == parts[0];
    } else if |parts| > 1 {
      UnspacedJoin(parts[1..]);
      UnspacedAppend(parts[0] + " ", Join(parts[1..], " "));
      UnspacedAppend(parts[0], " ");
      UnspacedAppend(parts[0], Concat(parts[1..]));
    }
  }

  /**
   * The binary search of the hard break over the cut `mid` in `[lo, hi]`, `best` the last
   * cut that fitted (1 until one does).
   */
  function CutSearch(width: string -> int, cut: string, maxW: int, lo: int, hi: int, best: nat): nat
    requires 1 <= lo <= hi + 1 && hi <= |cut|
    decreases hi - lo + 1
  {
    if lo > hi then best
    else
      var mid := (lo + hi) / 2;
      if width(cut[..mid]) <= maxW then CutSearch(width, cut, maxW, mid + 1, hi, mid)
      else CutSearch(width, cut, maxW, lo, mid - 1, best)
  }

  /** The search ends on a cut that fits, or on the `best` it started from. */
  lemma {:induction false} CutSearchFits(width: string -> int, cut: string, maxW: int, lo: int, hi: int, best: nat)
    requires 1 <= lo <= hi + 1 && hi <= |cut| && 1 <= best <= |cut|
    ensures var k := CutSearch(width, cut, maxW, lo, hi, best);
      1 <= k <= |cut| && (k == best || width(cut[..k]) <= maxW)
    decreases hi - lo + 1
  {
    if lo <= hi {
      var mid := (lo + hi) / 2;
      if width(cut[..mid]) <= maxW {
        CutSearchFits(width, cut, maxW, mid + 1, hi, mid);
      } else {
        CutSearchFits(width, cut, maxW, lo, mid - 1, best);
      }
    }
  }

  /**
   * How many characters of `cut` the next hard-break piece takes: at least one, and a
   * prefix that fits unless it is a single character.
   */
  function HardCut(width: string -> int, cut: string, maxW: int): (k: nat)
    requires cut != []
    ensures 1 <= k <= |cut|
    ensures k == 1 || width(cut[..k]) <= maxW
  {
    CutSearchFits(width, cut, maxW, 1, |cut|, 1);
    CutSearch(width, cut, maxW, 1, |cut|, 1)
  }

  /** Widths of longer prefixes are never smaller, as with any font's `size`. */
  predicate PrefixWidthsMonotone(width: string -> int, cut: string) {
    forall i, j :: 0 <= i <= j <= |cut| ==> PrefixWidth(width, cut, i) <= PrefixWidth(width, cut, j)
  }

  function PrefixWidth(width: string -> int, cut: string, i: int): int
    requires 0 <= i <= |cut|
  {
    width(cut[..i])
  }

  /** A cut that is too wide rules out every longer one. */
  lemma TooWideAbove(width: string -> int, cut: string, maxW: int, mid: int, hi: int)
    requires PrefixWidthsMonotone(width, cut)
    requires 0 <= mid <= |cut| && 0 <= hi && width(cut[..mid]) > maxW
    requires forall j :: hi < j <= |cut| ==> width(cut[..j]) > maxW
    ensures forall j :: mid <= j <= |cut| ==> width(cut[..j]) > maxW
  {
    forall j | mid <= j <= |cut|
      ensures width(cut[..j]) > maxW
    {
      if j <= hi {
        assert PrefixWidth(width, cut, mid) <= PrefixWidth(width, cut, j);
      }
    }
  }

  /** What holds at every step of the search under monotone widths: every cut past `hi` is too wide. */
  predicate SearchState(width: string -> int, cut: string, maxW: int, lo: int, hi: int, best: nat) {
    && 1 <= lo <= hi + 1 && 0 <= hi <= |cut|
    && best == (if lo == 1 then 1 else lo - 1)
    && (forall j :: hi < j <= |cut| ==> width(cut[..j]) > maxW)
  }

  lemma {:induction false} CutSearchLongest(width: string -> int, cut: string, maxW: int, lo: int, hi: int, best: nat, j: int)
    requires PrefixWidthsMonotone(width, cut) && SearchState(width, cut, maxW, lo, hi, best)
    requires CutSearch(width, cut, maxW, lo, hi, best) < j <= |cut|
    ensures width(cut[..j]) > maxW
    decreases hi - lo + 1
  {
    if lo <= hi {
      var mid := (lo + hi) / 2;
      if width(cut[..mid]) <= maxW {
        CutSearchLongest(width, cut, maxW, mid + 1, hi, mid, j);
      } else {
        TooWideAbove(width, cut, maxW, mid, hi);
        CutSearchLongest(width, cut, maxW, lo, mid - 1, best, j);
      }
    }
  }

  /**
   * When longer prefixes are never narrower, the binary search finds the longest prefix
   * that fits: every longer one is too wide (and a single character is taken when none fits).
   */
  lemma HardCutLongest(width: string -> int, cut: string, maxW: int)
    requires cut != [] && PrefixWidthsMonotone(width, cut)
    ensures forall j :: HardCut(width, cut, maxW) < j <= |cut| ==> width(cut[..j]) > maxW
  {
    forall j | HardCut(width, cut, maxW) < j <= |cut|
      ensures width(cut[..j]) > maxW
    {
      CutSearchLongest(width, cut, maxW, 1, |cut|, 1, j);
    }
  }

  /** Hard-breaking a token: the longest fitting piece, then the rest broken the same way. */
  function HardBreak(width: string -> int, cut: string, maxW: int): seq<string>
    decreases |cut|
  {
    if cut == [] then []
    else
      var k := HardCut(width, cut, maxW);
      [cut[..k]] + HardBreak(width, cut[k..], maxW)
  }

  /** The pieces of a hard break give the token back when put together. */
  lemma {:induction false} HardBreakConcat(width: string -> int, cut: string, maxW: int)
    ensures Concat(HardBreak(width, cut, maxW)) == cut
    decreases |cut|
  {
    if cut != [] {
      var k := HardCut(width, cut, maxW);
      var rest := HardBreak(width, cut[k..], maxW);
      HardBreakConcat(width, cut[k..], maxW);
      assert ([cut[..k]] + rest)[1..] == rest;
      assert cut == cut[..k] + cut[k..];
    }
  }

  /**
   * The pieces of a hard break are non-empty, each fits or is a single character, and none
   * holds a space the token lacks.
   */
  lemma {:induction false} HardBreakPieces(width: string -> int, cut: string, maxW: int)
    ensures forall i :: 0 <= i < |HardBreak(width, cut, maxW)| ==>
      HardBreak(width, cut, maxW)[i] != [] &&
      (|HardBreak(width, cut, maxW)[i]| == 1 || width(HardBreak(width, cut, maxW)[i]) <= maxW) &&
      (' ' !in cut ==> ' ' !in HardBreak(width, cut, maxW)[i])
    decreases |cut|
  {
    if cut != [] {
      var k := HardCut(width, cut, maxW);
      var rest := HardBreak(width, cut[k..], maxW);
      HardBreakPieces(width, cut[k..], maxW);
      assert forall c :: c in cut[..k] ==> c in cut;
      assert forall c :: c in cut[k..] ==> c in cut;
      var pieces := [cut[..k]] + rest;
      forall i | 0 <= i < |pieces|
        ensures pieces[i] != [] && (|pieces[i]| == 1 || width(pieces[i]) <= maxW) && (' ' !in cut ==> ' ' !in pieces[i])
      {
        if i > 0 {
          assert pieces[i] == rest[i - 1];
        }
      }
    }
  }

  /**
   * The word loop of `_wrap_text` over `words`, `cur` the line being built: a word joins
   * the line when the result fits; otherwise the line is emitted and the word starts the
   * next one, or, on an empty line, the word is hard-broken. The last line is emitted when
   * non-empty.
   */
  function WrapWords(width: string -> int, words: seq<string>, maxW: int, cur: string): seq<string>
    decreases |words|
  {
    if words == [] then (if cur != [] then [cur] else [])
    else
      var w := words[0];
      var cand := if cur == [] then w else cur + " " + w;
      if width(cand) <= maxW then WrapWords(width, words[1..], maxW, cand)
      else if cur != [] then [cur] + WrapWords(width, words[1..], maxW, w)
      else HardBreak(width, w, maxW) + WrapWords(width, words[1..], maxW, [])
  }

  /**
   * Every line the word loop emits is non-empty, and it fits unless it is a single word:
   * a long word that follows another word moves to a line of its own unbroken.
   */
  lemma {:induction false} WrapWordsLines(width: string -> int, words: seq<string>, maxW: int, cur: string)
    requires forall k :: 0 <= k < |words| ==> ' ' !in words[k]
    requires cur == [] || width(cur) <= maxW || ' ' !in cur
    ensures forall i :: 0 <= i < |WrapWords(width, words, maxW, cur)| ==>
      WrapWords(width, words, maxW, cur)[i] != [] &&
      (width(WrapWords(width, words, maxW, cur)[i]) <= maxW || ' ' !in WrapWords(width, words, maxW, cur)[i])
  {
    if words != [] {
      var w := words[0];
      assert ' ' !in w;
      var cand := if cur == [] then w else cur + " " + w;
      if width(cand) <= maxW {
        assert WrapWords(width, words, maxW, cur) == WrapWords(width, words[1..], maxW, cand);
        WrapWordsLines(width, words[1..], maxW, cand);
      } else if cur != [] {
        var rest := WrapWords(width, words[1..], maxW, w);
        assert WrapWords(width, words, maxW, cur) == [cur] + rest;
        WrapWordsLines(width, words[1..], maxW, w);
      } else {
        var pieces := HardBreak(width, w, maxW);
        var rest := WrapWords(width, words[1..], maxW, []);
        assert WrapWords(width, words, maxW, cur) == pieces + rest;
        HardBreakPieces(width, w, maxW);
        WrapWordsLines(width, words[1..], maxW, []);
        forall i | 0 <= i < |pieces| + |rest|
          ensures (pieces + rest)[i] != [] && (width((pieces + rest)[i]) <= maxW || ' ' !in (pieces + rest)[i])
        {
          if i < |pieces| {
            assert (pieces + rest)[i] == pieces[i];
          } else {
            assert (pieces + rest)[i] == rest[i - |pieces|];
          }
        }
      }
    }
  }

  /** A trailing space adds nothing. */
  lemma UnspacedSpaced(cur: string)
    ensures Unspaced(cur + " ") == Unspaced(cur)
  {
    UnspacedAppend(cur, " ");
    assert " "[1..] == [];
  }

  /** A line joined from two with a space has the same text up to spaces. */
  lemma UnspacedJoined(cur: string, w: string, more: string)
    ensures Unspaced(cur + " " + w) + Unspaced(more) == Unspaced(cur) + Unspaced(w + more)
  {
    UnspacedAppend(cur + " ", w);
    UnspacedSpaced(cur);
    UnspacedAppend(w, more);
  }

  /** Emitting `cur` in front of lines that hold `w` and then `more`. */
  lemma UnspacedFlushed(cur: string, linesText: string, w: string, more: string)
    requires Unspaced(linesText) == Unspaced(w) + Unspaced(more)
    ensures Unspaced(cur + linesText) == Unspaced(cur) + Unspaced(w + more)
  {
    UnspacedAppend(cur, linesText);
    UnspacedAppend(w, more);
  }

  /** The word loop drops or moves spaces and nothing else. */
  lemma {:induction false} WrapWordsKeepsText(width: string -> int, words: seq<string>, maxW: int, cur: string)
    ensures Unspaced(Concat(WrapWords(width, words, maxW, cur))) == Unspaced(cur) + Unspaced(Concat(words))
  {
    if words == [] {
      assert Unspaced(Concat(words)) == [];
      if cur != [] {
        assert [cur][1..] == [];
        assert Concat([cur]) == cur + [];
        assert cur + [] == cur;
        assert Unspaced(cur) + [] == Unspaced(cur);
      }
    } else {
      var w := words[0];
      var more := Concat(words[1..]);
      assert Concat(words) == w + more;
      var cand := if cur == [] then w else cur + " " + w;
      if width(cand) <= maxW {
        assert WrapWords(width, words, maxW, cur) == WrapWords(width, words[1..], maxW, cand);
        WrapWordsKeepsText(width, words[1..], maxW, cand);
        if cur != [] {
          UnspacedJoined(cur, w, more);
        } else {
          UnspacedAppend(w, more);
        }
      } else if cur != [] {
        var rest := WrapWords(width, words[1..], maxW, w);
        assert WrapWords(width, words, maxW, cur) == [cur] + rest;
        assert ([cur] + rest)[1..] == rest;
        assert Concat([cur] + rest) == cur + Concat(rest);
        WrapWordsKeepsText(width, words[1..], maxW, w);
        UnspacedFlushed(cur, Concat(rest), w, more);
      } else {
        var pieces := HardBreak(width, w, maxW);
        var rest := WrapWords(width, words[1..], maxW, []);
        assert WrapWords(width, words, maxW, cur) == pieces + rest;
        HardBreakConcat(width, w, maxW);
        ConcatAppend(pieces, rest);
        assert Concat(pieces + rest) == w + Concat(rest);
        WrapWordsKeepsText(width, words[1..], maxW, []);
        assert Unspaced([]) + Unspaced(more) == Unspaced(more);
        UnspacedAppend(w, Concat(rest));
        UnspacedAppend(w, more);
      }
    }
  }

  /** One paragraph of `_wrap_text`: a blank one becomes a single empty line. */
  function WrapParagraph(width: string -> int, para: string, maxW: int): seq<string> {
    if Strip(para) == "" then [""] else WrapWords(width, SplitOn(para, ' '), maxW, [])
  }

  /**
   * A paragraph with some non-space text wraps into non-empty lines, each of which fits
   * unless it is a single word, and together they hold the paragraph's text up to spaces.
   */
  lemma WrapParagraphSpec(width: string -> int, para: string, maxW: int)
    ensures Strip(para) == "" ==> WrapParagraph(width, para, maxW) == [""]
    ensures Strip(para) != "" ==>
      var lines := WrapParagraph(width, para, maxW);
      && (forall i :: 0 <= i < |lines| ==> lines[i] != [] && (width(lines[i]) <= maxW || ' ' !in lines[i]))
      && Unspaced(Concat(lines)) == Unspaced(para)
  {
    if Strip(para) != "" {
      var words := SplitOn(para, ' ');
      WrapWordsLines(width, words, maxW, []);
      WrapWordsKeepsText(width, words, maxW, []);
      UnspacedJoin(words);
    }
  }

  function WrapParagraphs(width: string -> int, paras: seq<string>, maxW: int): seq<string> {
    if paras == [] then []
    else WrapParagraphs(width, paras[..|paras| - 1], maxW) + WrapParagraph(width, paras[|paras| - 1], maxW)
  }

  /** Wrapping one more paragraph appends its lines. */
  lemma WrapParagraphsStep(width: string -> int, paras: seq<string>, i: int, maxW: int)
    requires 0 <= i < |paras|
    ensures WrapParagraphs(width, paras[..i + 1], maxW)
      == WrapParagraphs(width, paras[..i], maxW) + WrapParagraph(width, paras[i], maxW)
  {
    assert paras[..i + 1][..i] == paras[..i];
  }

  /**
   * `_wrap_text(font, text, max_w)`: the whole text as one line when `max_w <= 8`, and
   * otherwise the wrapped lines of its paragraphs in order (none at all for empty text).
   */
  function WrapTextSpec(width: string -> int, text: string, maxW: int): (lines: seq<string>)
    ensures maxW <= 8 ==> lines == [text]
    ensures maxW > 8 && text == "" ==> lines == []
  {
    if maxW <= 8 then [text] else WrapParagraphs(width, SplitLines(text), maxW)
  }

  /** The binary search for the longest piece of `cut` that fits. */
  method FindCut(width: string -> int, cut: string, maxW: int) returns (best: nat)
    requires cut != []
    ensures best == HardCut(width, cut, maxW)
  {
    var lo, hi := 1, |cut|;
    best := 1;
    ghost var target := CutSearch(width, cut, maxW, lo, hi, best);
    while lo <= hi
      invariant 1 <= lo <= hi + 1 && hi <= |cut|
      invariant CutSearch(width, cut, maxW, lo, hi, best) == target
      decreases hi - lo + 1
    {
      var mid := (lo + hi) / 2;
      if width(cut[..mid]) <= maxW {
        best := mid;
        lo := mid + 1;
      } else {
        hi := mid - 1;
      }
    }
  }

  /** The hard-break loop: takes the longest fitting piece off the token until none is left. */
  method HardBreakLines(width: string -> int, w: string, maxW: int) returns (pieces: seq<string>)
    ensures pieces == HardBreak(width, w, maxW)
  {
    pieces := [];
    var cut := w;
    while cut != []
      invariant pieces + HardBreak(width, cut, maxW) == HardBreak(width, w, maxW)
      decreases |cut|
    {
      var best := FindCut(width, cut, maxW);
      assert HardBreak(width, cut, maxW) == [cut[..best]] + HardBreak(width, cut[best..], maxW);
      pieces := pieces + [cut[..best]];
      cut := cut[best..];
    }
  }

  /** One turn of the word loop, from word `j` on. */
  lemma WrapWordsAt(width: string -> int, words: seq<string>, j: int, maxW: int, cur: string)
    requires 0 <= j < |words|
    ensures var w := words[j];
      var cand := if cur == [] then w else cur + " " + w;
      WrapWords(width, words[j..], maxW, cur) ==
        if width(cand) <= maxW then WrapWords(width, words[j + 1..], maxW, cand)
        else if cur != [] then [cur] + WrapWords(width, words[j + 1..], maxW, w)
        else HardBreak(width, w, maxW) + WrapWords(width, words[j + 1..], maxW, [])
  {
    assert words[j..][0] == words[j] && words[j..][1..] == words[j + 1..];
  }

  /** The word loop: greedy filling of lines, hard-breaking a word that is too wide alone. */
  method WrapWordsLoop(width: string -> int, words: seq<string>, maxW: int) returns (out: seq<string>)
    ensures out == WrapWords(width, words, maxW, [])
  {
    out := [];
    var cur := "";
    for j := 0 to |words|
      invariant out + WrapWords(width, words[j..], maxW, cur) == WrapWords(width, words, maxW, [])
    {
      WrapWordsAt(width, words, j, maxW, cur);
      var w := words[j];
      var cand := if cur == "" then w else cur + " " + w;
      if width(cand) <= maxW {
        cur := cand;
      } else if cur != "" {
        AppendAssoc(out, [cur], WrapWords(width, words[j + 1..], maxW, w));
        out := out + [cur];
        cur := w;
      } else {
        var pieces := HardBreakLines(width, w, maxW);
        AppendAssoc(out, pieces, WrapWords(width, words[j + 1..], maxW, []));
        out := out + pieces;
        cur := "";
      }
    }
    if cur != "" {
      out := out + [cur];
    }
  }

  lemma AppendAssoc(a: seq<string>, b: seq<string>, c: seq<string>)
    ensures a + (b + c) == a + b + c
  {
  }

  /** One paragraph: a blank one is a single empty line, any other goes through the word loop. */
  method WrapParagraphLines(width: string -> int, para: string, maxW: int) returns (out: seq<string>)
    ensures out == WrapParagraph(width, para, maxW)
  {
    if Strip(para) == "" {
      return [""];
    }
    out := WrapWordsLoop(width, SplitOn(para, ' '), maxW);
  }

  /** `_wrap_text`, proved to compute `WrapTextSpec`. */
  method WrapText(width: string -> int, text: string, maxW: int) returns (lines: seq<string>)
    ensures lines == WrapTextSpec(width, text, maxW)
  {
    if maxW <= 8 {
      return [text];
    }
    lines := [];
    var paras := SplitLines(text);
    for i := 0 to |paras|
      invariant lines == WrapParagraphs(width, paras[..i], maxW)
    {
      var pl := WrapParagraphLines(width, paras[i], maxW);
      WrapParagraphsStep(width, paras, i, maxW);
      lines := lines + pl;
    }
    assert paras[..|paras|] == paras;
  }

  // ---------------------------------------------------------------------------
  // _is_discreet_line

  const SignatureLine: string := "made by retzilience."

  /** `_is_discreet_line`: the line, trimmed and lowercased, is the signature. */
  predicate IsDiscreetLine(line: string)
    ensures IsDiscreetLine(line) ==> |SignatureLine| <= |line|
  {
    Lower(Strip(line)) == SignatureLine
  }

  lemma {:induction false} RStripLower(s: string)
    ensures RStrip(Lower(s)) == Lower(RStrip(s))
    decreases |s|
  {
    if |s| > 0 {
      var l := Lower(s);
      LowerCharSpace(s[|s| - 1]);
      if IsSpace(s[|s| - 1]) {
        assert l[..|s| - 1] == Lower(s[..|s| - 1]);
        RStripLower(s[..|s| - 1]);
        assert RStrip(l) == RStrip(l[..|l| - 1]);
        assert RStrip(s) == RStrip(s[..|s| - 1]);
      } else {
        assert RStrip(l) == l;
        assert RStrip(s) == s;
      }
    }
  }

  lemma {:induction false} LStripLower(s: string)
    ensures LStrip(Lower(s)) == Lower(LStrip(s))
    decreases |s|
  {
    if |s| > 0 {
      var l := Lower(s);
      LowerCharSpace(s[0]);
      if IsSpace(s[0]) {
        assert l[1..] == Lower(s[1..]);
        LStripLower(s[1..]);
        assert LStrip(l) == LStrip(l[1..]);
        assert LStrip(s) == LStrip(s[1..]);
      } else {
        assert LStrip(l) == l;
        assert LStrip(s) == s;
      }
    }
  }

  /** Lowercasing never turns a space into a non-space or back. */
  lemma LowerCharSpace(c: char)
    ensures IsSpace(LowerChar(c)) == IsSpace(c)
  {
  }

  /** The test ignores case: a line is the signature exactly when its lowercase form is. */
  lemma DiscreetLineIgnoresCase(line: string)
    ensures IsDiscreetLine(Lower(line)) <==> IsDiscreetLine(line)
  {
    RStripLower(line);
    LStripLower(RStrip(line));
    LowerIdempotent(Strip(line));
  }

  // ---------------------------------------------------------------------------
  // _HelpDialog

  /** The dialog's rectangles as `layout` leaves them, the wrapped text's height and the font's line height. */
  datatype HelpGeometry = HelpGeometry(panel: Rect, body: Rect, closeX: Rect, github: Rect, contentH: int, lineH: int)

  /** How far the body can scroll: the overflow of the text past the body, or nothing. */
  function MaxScrollY(g: HelpGeometry): (m: int)
    ensures m >= 0
    ensures g.contentH > g.body.h ==> m == g.contentH - g.body.h
  {
    if g.contentH - g.body.h > 0 then g.contentH - g.body.h else 0
  }

  /** `_clamp_scroll`: an offset between the top and the last page of the text. */
  function ClampScrollY(g: HelpGeometry, y: int): (r: int)
    ensures 0 <= r <= MaxScrollY(g)
    ensures 0 <= y <= MaxScrollY(g) ==> r == y
    ensures y < 0 ==> r == 0
    ensures y > MaxScrollY(g) ==> r == MaxScrollY(g)
  {
    ClampInt(y, 0, MaxScrollY(g))
  }

  /**
   * `_scrollbar_rects`: a bar only when the text overflows the body; the thumb runs in the
   * track's column, is never shorter than its minimum, its top stays within the track's
   * free length, and it sits at the top while the text is scrolled to the top.
   */
  function HelpScrollbar(g: HelpGeometry, scrollY: int): (r: Option<ScrollbarRects>)
    ensures r.Some? <==> g.contentH > g.body.h
    ensures r.Some? ==> r.value.thumb.x == r.value.track.x && r.value.thumb.w == r.value.track.w
    ensures r.Some? ==> r.value.thumb.h >= Scaled(26.0, 16)
    ensures r.Some? ==>
      r.value.track.y <= r.value.thumb.y <= r.value.track.y + (if r.value.track.h - r.value.thumb.h >= 1 then r.value.track.h - r.value.thumb.h else 1)
    ensures r.Some? && scrollY <= 0 ==> r.value.thumb.y == r.value.track.y
  {
    if g.contentH <= g.body.h then None
    else
      var trackW := Scaled(10.0, 7);
      var track := Rect(g.body.Right() - trackW - Scaled(4.0, 3), g.body.y + Scaled(4.0, 3), trackW, g.body.h - Scaled(8.0, 6));
      var fromFrac := ThumbFromFraction(track.h, g.body.h, g.contentH);
      var thumbH := if Scaled(26.0, 16) >= fromFrac then Scaled(26.0, 16) else fromFrac;
      var maxScroll := if g.contentH - g.body.h >= 1 then g.contentH - g.body.h else 1;
      var denom := if track.h - thumbH >= 1 then track.h - thumbH else 1;
      var t := Clamp(scrollY as real / maxScroll as real, 0.0, 1.0);
      var tpos := ScrollAtFraction(t, denom);
      assert scrollY <= 0 ==> t == 0.0 && tpos == 0 by {
        if scrollY <= 0 {
          assert scrollY as real / maxScroll as real <= 0.0;
          assert t * denom as real == 0.0;
        }
      }
      Some(ScrollbarRects(track, Rect(track.x, track.y + tpos, track.w, thumbH)))
  }

  /** The thumb height the body's share of the text asks for, `round(track.h * body.h / content_h)`. */
  function ThumbFromFraction(trackH: int, bodyH: int, contentH: int): int {
    Round(trackH as real * (bodyH as real / (if contentH >= 1 then contentH else 1) as real))
  }

  /** `_set_scroll_from_thumb`: the offset that puts the thumb's top at `thumbY`, always in range. */
  function HelpThumbScroll(g: HelpGeometry, track: Rect, thumbH: int, thumbY: int): (r: int)
    ensures 0 <= r <= MaxScrollY(g)
  {
    var m := MaxScrollY(g);
    if m <= 0 then 0 else ClampScrollY(g, ScrollAtFraction(ThumbFraction(track, thumbH, thumbY), m))
  }

  /** The thumb at the top of the track shows the start of the text, and at the bottom its end. */
  lemma HelpThumbEnds(g: HelpGeometry, track: Rect, thumbH: int, thumbY: int)
    ensures thumbY <= track.y ==> HelpThumbScroll(g, track, thumbH, thumbY) == 0
    ensures thumbY >= track.y + (if track.h - thumbH >= 1 then track.h - thumbH else 1) ==>
      HelpThumbScroll(g, track, thumbH, thumbY) == MaxScrollY(g)
  {
    var m := MaxScrollY(g);
    var denom := (if track.h - thumbH >= 1 then track.h - thumbH else 1) as real;
    var q := (thumbY - track.y) as real / denom;
    if m > 0 && thumbY <= track.y {
      assert q <= 0.0;
      assert ThumbFraction(track, thumbH, thumbY) * m as real == 0 as real;
      assert ScrollAtFraction(ThumbFraction(track, thumbH, thumbY), m) == 0;
    }
    if m > 0 && thumbY >= track.y + (if track.h - thumbH >= 1 then track.h - thumbH else 1) {
      assert q >= 1.0;
      assert ThumbFraction(track, thumbH, thumbY) * m as real == m as real;
      assert ScrollAtFraction(ThumbFraction(track, thumbH, thumbY), m) == m;
    }
  }

  /** The dialog's state that `handle_event` changes. */
  datatype HelpState = HelpState(visible: bool, scrollY: int, dragging: bool, dragOffsetY: int)

  /** A page for Page Up and Page Down: 85% of the body's height, and at least a line. */
  function PageHeight(g: HelpGeometry): (p: int)
    ensures p >= g.lineH
    ensures g.body.h >= 0 ==> p >= 0
  {
    var fromBody := Trunc(g.body.h as real * 0.85);
    if g.lineH >= fromBody then g.lineH else fromBody
  }

  /** The pixels a wheel movement of `dy` scrolls: two lines per notch, rounded. */
  function WheelPixels(dy: real, lineH: int): int {
    Round(dy * lineH as real * 2.0)
  }

  /** The keys `handle_event` answers: Escape closes, the others scroll; `None` for any other key. */
  function HelpKeyStep(g: HelpGeometry, s: HelpState, key: Key): Option<HelpState> {
    match key
    case EscapeKey => Some(s.(visible := false))
    case UpKey => Some(s.(scrollY := ClampScrollY(g, s.scrollY + -(g.lineH * 2))))
    case DownKey => Some(s.(scrollY := ClampScrollY(g, s.scrollY + g.lineH * 2)))
    case PageUpKey => Some(s.(scrollY := ClampScrollY(g, s.scrollY + -PageHeight(g))))
    case PageDownKey => Some(s.(scrollY := ClampScrollY(g, s.scrollY + PageHeight(g))))
    case HomeKey => Some(s.(scrollY := ClampScrollY(g, 0)))
    case EndKey => Some(s.(scrollY := ClampScrollY(g, MaxScrollY(g))))
    case _ => None
  }

  /** While the thumb is held: motion drags it, releasing the left button lets go, anything else is swallowed. */
  function HelpDragStep(g: HelpGeometry, s: HelpState, ev: Event): HelpState {
    if ev.MouseMotion? then
      match HelpScrollbar(g, s.scrollY)
      case Some(bar) => s.(scrollY := HelpThumbScroll(g, bar.track, bar.thumb.h, ev.py - s.dragOffsetY))
      case None => s
    else if IsLeftUp(ev) then s.(dragging := false, dragOffsetY := 0)
    else s
  }

  /** The wheel scrolls only with the mouse over the body. */
  function HelpWheelStep(g: HelpGeometry, s: HelpState, dy: real, mouse: (int, int)): HelpState {
    if g.body.Contains(mouse.0, mouse.1) then s.(scrollY := ClampScrollY(g, s.scrollY - WheelPixels(dy, g.lineH)))
    else s
  }

  /**
   * A left click: outside the panel or on the close button closes the dialog, on the
   * GitHub button it asks for the project page, on the thumb it starts a drag and elsewhere
   * on the track it centres the thumb on the click. The flag asks for the project page.
   */
  function HelpClickStep(g: HelpGeometry, s: HelpState, px: int, py: int): (HelpState, bool) {
    if !g.panel.Contains(px, py) then (s.(visible := false), false)
    else if g.closeX.Contains(px, py) then (s.(visible := false), false)
    else if g.github.Contains(px, py) then (s, true)
    else
      var bar := HelpScrollbar(g, s.scrollY);
      if bar.Some? && bar.value.track.Contains(px, py) then
        var thumb := bar.value.thumb;
        if thumb.Contains(px, py) then (s.(dragging := true, dragOffsetY := py - thumb.y), false)
        else (s.(scrollY := HelpThumbScroll(g, bar.value.track, thumb.h, py - thumb.h / 2)), false)
      else (s, false)
  }

  /**
   * `_HelpDialog.handle_event`: the next state, whether the event was consumed, and whether
   * the project page is to be opened.
   */
  function HelpStep(g: HelpGeometry, s: HelpState, ev: Event, mouse: (int, int)): (r: (HelpState, bool, bool))
    ensures !r.1 ==> r.0 == s && !r.2
    ensures r.2 ==> r.1 && r.0 == s
  {
    if !s.visible then (s, false, false)
    else if ev.KeyDown? && HelpKeyStep(g, s, ev.key).Some? then (HelpKeyStep(g, s, ev.key).value, true, false)
    else if s.dragging then (HelpDragStep(g, s, ev), true, false)
    else if ev.MouseWheel? then (HelpWheelStep(g, s, ev.dy, mouse), true, false)
    else if IsLeftDown(ev) then
      var (t, open) := HelpClickStep(g, s, ev.px, ev.py);
      (t, true, open)
    else (s, false, false)
  }

  /** A hidden dialog lets every event through and changes nothing. */
  lemma HelpHiddenIgnores(g: HelpGeometry, s: HelpState, ev: Event, mouse: (int, int))
    requires !s.visible
    ensures HelpStep(g, s, ev, mouse) == (s, false, false)
  {
  }

  /** Every scroll the dialog makes lands between the top and the last page. */
  lemma HelpStepScrollInRange(g: HelpGeometry, s: HelpState, ev: Event, mouse: (int, int))
    ensures var (t, _, _) := HelpStep(g, s, ev, mouse);
      t.scrollY == s.scrollY || 0 <= t.scrollY <= MaxScrollY(g)
  {
  }

  /**
   * The keys on a shown dialog: Escape hides it and nothing else; Home goes to the top and
   * End to the last page; Up and Page Up never scroll down and Down and Page Down never up,
   * and each moves by exactly its amount when the target is in range.
   */
  lemma HelpKeys(g: HelpGeometry, s: HelpState, key: Key, text: string)
    requires s.visible && g.lineH >= 0 && g.body.h >= 0
    requires 0 <= s.scrollY <= MaxScrollY(g)
    ensures var (t, consumed, open) := HelpStep(g, s, KeyDown(key, text), (0, 0));
      && (key == EscapeKey ==> t == s.(visible := false) && consumed && !open)
      && (key == HomeKey ==> t == s.(scrollY := 0) && consumed)
      && (key == EndKey ==> t == s.(scrollY := MaxScrollY(g)) && consumed)
      && (key == UpKey || key == PageUpKey ==> t.scrollY <= s.scrollY && consumed)
      && (key == DownKey || key == PageDownKey ==> t.scrollY >= s.scrollY && consumed)
      && (key == DownKey && s.scrollY + 2 * g.lineH <= MaxScrollY(g) ==> t.scrollY == s.scrollY + 2 * g.lineH)
      && (key == UpKey && s.scrollY - 2 * g.lineH >= 0 ==> t.scrollY == s.scrollY - 2 * g.lineH)
      && (key == PageDownKey && s.scrollY + PageHeight(g) <= MaxScrollY(g) ==> t.scrollY == s.scrollY + PageHeight(g))
      && (key == PageUpKey && s.scrollY - PageHeight(g) >= 0 ==> t.scrollY == s.scrollY - PageHeight(g))
  {
  }

  /**
   * The shown dialog is modal: it consumes every wheel event and left click, and everything
   * while the thumb is held; only a left click on the GitHub button asks for the project page.
   */
  lemma HelpModal(g: HelpGeometry, s: HelpState, ev: Event, mouse: (int, int))
    requires s.visible
    ensures var (_, consumed, open) := HelpStep(g, s, ev, mouse);
      && (ev.MouseWheel? || IsLeftDown(ev) || s.dragging ==> consumed)
      && (open <==> !s.dragging && IsLeftDown(ev) && g.panel.Contains(ev.px, ev.py) &&
                    !g.closeX.Contains(ev.px, ev.py) && g.github.Contains(ev.px, ev.py))
  {
  }

  /** The rectangles `layout` places for the window: the panel, its buttons, the title row and the text body. */
  datatype HelpFrame = HelpFrame(panel: Rect, closeX: Rect, github: Rect, titleY: int, body: Rect)

  /** The width the text is wrapped to: the body less room for the scrollbar, and at least 40. */
  function WrapWidth(body: Rect): (w: int)
    ensures w >= 40
  {
    if 40 >= body.w - Scaled(20.0, 14) then 40 else body.w - Scaled(20.0, 14)
  }

  /** `_HelpDialog`: the help text in a modal, scrollable panel. */
  class HelpDialog {
    /** The font, as its width function and line height. */
    const width: string -> int
    const lineH: int
    const text: string

    var visible: bool
    var panel: Rect
    var closeX: Rect
    var github: Rect
    var titleY: int
    var body: Rect
    var scrollY: int
    var contentH: int
    var wrappedLines: seq<string>
    var dragging: bool
    var dragOffsetY: int

    function Geometry(): HelpGeometry
      reads this
    {
      HelpGeometry(panel, body, closeX, github, contentH, lineH)
    }

    function State(): HelpState
      reads this
    {
      HelpState(visible, scrollY, dragging, dragOffsetY)
    }

    function Frame(): HelpFrame
      reads this
    {
      HelpFrame(panel, closeX, github, titleY, body)
    }

    /** A shown dialog, not yet laid out, holding `text` in the given font. */
    constructor(width: string -> int, lineH: int, text: string)
      ensures this.width == width && this.lineH == lineH && this.text == text
      ensures visible && panel == Rect(0, 0, 640, 420)
      ensures closeX == Rect(0, 0, 0, 0) && github == Rect(0, 0, 0, 0) && body == Rect(0, 0, 0, 0) && titleY == 0
      ensures scrollY == 0 && contentH == 0 && wrappedLines == []
      ensures !dragging && dragOffsetY == 0
    {
      this.width := width;
      this.lineH := lineH;
      this.text := text;
      visible := true;
      panel := Rect(0, 0, 640, 420);
      closeX := Rect(0, 0, 0, 0);
      github := Rect(0, 0, 0, 0);
      titleY := 0;
      body := Rect(0, 0, 0, 0);
      scrollY := 0;
      contentH := 0;
      wrappedLines := [];
      dragging := false;
      dragOffsetY := 0;
    }

    method ClampScroll()
      modifies this`scrollY
      ensures scrollY == ClampScrollY(Geometry(), old(scrollY))
    {
      var m := if contentH - body.h > 0 then contentH - body.h else 0;
      scrollY := ClampInt(scrollY, 0, m);
    }

    method ScrollByPixels(dy: int)
      modifies this`scrollY
      ensures scrollY == ClampScrollY(Geometry(), old(scrollY) + dy)
    {
      scrollY := scrollY + dy;
      ClampScroll();
    }

    method SetScrollFromThumb(track: Rect, thumbH: int, thumbY: int)
      modifies this`scrollY
      ensures scrollY == HelpThumbScroll(Geometry(), track, thumbH, thumbY)
    {
      var m := if contentH - body.h > 0 then contentH - body.h else 0;
      if m <= 0 {
        scrollY := 0;
        return;
      }
      var t := ThumbFraction(track, thumbH, thumbY);
      scrollY := ScrollAtFraction(t, m);
      ClampScroll();
    }

    /**
     * `layout` once its rectangles `f` are placed: the text is wrapped to the body less room
     * for the scrollbar, its height is the line count times the line height, and the scroll
     * is clamped for the new height; the rest of the dialog's state is kept.
     */
    method Layout(f: HelpFrame)
      modifies this`panel, this`closeX, this`github, this`titleY, this`body
      modifies this`wrappedLines, this`contentH, this`scrollY
      ensures Frame() == f
      ensures wrappedLines == WrapTextSpec(width, text, WrapWidth(f.body))
      ensures contentH == |wrappedLines| * lineH
      ensures scrollY == ClampScrollY(Geometry(), old(scrollY))
    {
      PlaceFrame(f);
      Rewrap(WrapWidth(body));
    }

    method PlaceFrame(f: HelpFrame)
      modifies this`panel, this`closeX, this`github, this`titleY, this`body
      ensures Frame() == f
    {
      panel, closeX, github, titleY, body := f.panel, f.closeX, f.github, f.titleY, f.body;
    }

    /** Wraps the text to `wrapW` and keeps the scroll in range for the new height. */
    method Rewrap(wrapW: int)
      modifies this`wrappedLines, this`contentH, this`scrollY
      ensures wrappedLines == WrapTextSpec(width, text, wrapW)
      ensures contentH == |wrappedLines| * lineH
      ensures scrollY == ClampScrollY(Geometry(), old(scrollY))
    {
      wrappedLines := WrapText(width, text, wrapW);
      contentH := |wrappedLines| * lineH;
      ClampScroll();
    }

    /** The key branch of `handle_event`; `handled` is false for a key it does not answer. */
    method KeyEvent(key: Key) returns (handled: bool)
      modifies this`visible, this`scrollY
      ensures handled == HelpKeyStep(old(Geometry()), old(State()), key).Some?
      ensures handled ==> State() == HelpKeyStep(old(Geometry()), old(State()), key).value
      ensures !handled ==> State() == old(State())
    {
      handled := true;
      match key {
        case EscapeKey => visible := false;
        case UpKey => ScrollByPixels(-(lineH * 2));
        case DownKey => ScrollByPixels(lineH * 2);
        case PageUpKey => ScrollByPixels(-PageHeight(Geometry()));
        case PageDownKey => ScrollByPixels(PageHeight(Geometry()));
        case HomeKey =>
          scrollY := 0;
          ClampScroll();
        case EndKey =>
          scrollY := if contentH - body.h > 0 then contentH - body.h else 0;
          ClampScroll();
        case _ => handled := false;
      }
    }

    method DragEvent(ev: Event)
      modifies this`scrollY, this`dragging, this`dragOffsetY
      ensures State() == HelpDragStep(old(Geometry()), old(State()), ev)
    {
      if ev.MouseMotion? {
        var bar := HelpScrollbar(Geometry(), scrollY);
        if bar.Some? {
          SetScrollFromThumb(bar.value.track, bar.value.thumb.h, ev.py - dragOffsetY);
        }
        return;
      }
      if ev.MouseUp? && ev.button == 1 {
        dragging := false;
        dragOffsetY := 0;
      }
    }

    method ClickEvent(px: int, py: int) returns (openGithub: bool)
      modifies this`visible, this`scrollY, this`dragging, this`dragOffsetY
      ensures (State(), openGithub) == HelpClickStep(old(Geometry()), old(State()), px, py)
    {
      openGithub := false;
      if !panel.Contains(px, py) {
        visible := false;
        return;
      }
      if closeX.Contains(px, py) {
        visible := false;
        return;
      }
      if github.Contains(px, py) {
        openGithub := true;
        return;
      }
      var bar := HelpScrollbar(Geometry(), scrollY);
      if bar.Some? && bar.value.track.Contains(px, py) {
        var thumb := bar.value.thumb;
        if thumb.Contains(px, py) {
          dragging := true;
          dragOffsetY := py - thumb.y;
        } else {
          SetScrollFromThumb(bar.value.track, thumb.h, py - thumb.h / 2);
        }
      }
    }

    /**
     * `handle_event`, proved to do what `HelpStep` says; `openGithub` stands for the call
     * that opens the project page in a browser.
     */
    method HandleEvent(ev: Event, mouse: (int, int)) returns (consumed: bool, openGithub: bool)
      modifies this`visible, this`scrollY, this`dragging, this`dragOffsetY
      ensures (State(), consumed, openGithub) == HelpStep(old(Geometry()), old(State()), ev, mouse)
    {
      openGithub := false;
      if !visible {
        return false, false;
      }
      if ev.KeyDown? {
        var handled := KeyEvent(ev.key);
        if handled {
          return true, false;
        }
      }
      if dragging {
        DragEvent(ev);
        return true, false;
      }
      if ev.MouseWheel? {
        if body.Contains(mouse.0, mouse.1) {
          scrollY := scrollY - WheelPixels(ev.dy, lineH);
          ClampScroll();
        }
        return true, false;
      }
      if ev.MouseDown? && ev.button == 1 {
        openGithub := ClickEvent(ev.px, ev.py);
        return true, openGithub;
      }
      return false, false;
    }
  }
}

/**
 * The decision logic of `updater.py`: version keys and their ordering, the update descriptor
 * format (one `version | os | flags | url` entry per line), the GitHub "raw" link rewrite, the
 * update status computed from the descriptor, whether to show it, the toast timer and the
 * update dialog's state machine. Fetching, threads, files and the browser are outside the
 * model; the clock and the dialog's hit-tested clicks are parameters.
 */
module Updater {
  import opened Wrappers
  import opened Text

  // ---------------------------------------------------------------- versions

  /** `_version_key`: the decimal digit runs of `v` as numbers, or `[0]` when there are none. */
  function VersionKey(v: string): (key: seq<int>)
    ensures |key| > 0
    ensures forall k :: 0 <= k < |key| ==> key[k] >= 0
  {
    var runs := Runs(v, IsDigit);
    if runs == [] then [0]
    else seq(|runs|, k requires 0 <= k < |runs| => DigitsValue(runs[k]))
  }

  /** A dotted version, `"1.2.3"` for `[1, 2, 3]`. */
  function DottedVersion(key: seq<nat>): string {
    Join(seq(|key|, k requires 0 <= k < |key| => NatDecimal(key[k])), ".")
  }

  /** The key of a dotted version is the numbers it was written from. */
  lemma VersionKeyOfDotted(key: seq<nat>)
    requires |key| > 0
    ensures VersionKey(DottedVersion(key)) == key
  {
    var digits := seq(|key|, k requires 0 <= k < |key| => NatDecimal(key[k]));
    forall k | 0 <= k < |digits|
      ensures digits[k] != [] && forall i :: 0 <= i < |digits[k]| ==> IsDigit(digits[k][i])
    {
    }
    RunsOfJoin(digits, '.', IsDigit);
  }

  /** A version without digits has the key `[0]`. */
  lemma VersionKeyNoDigits(v: string)
    requires forall i :: 0 <= i < |v| ==> !IsDigit(v[i])
    ensures VersionKey(v) == [0]
  {
    RunsNone(v, IsDigit);
  }

  /** Python's `<` on tuples of integers: the first difference decides, and a proper prefix is smaller. */
  predicate LexLess(a: seq<int>, b: seq<int>)
  {
    if a == [] then b != []
    else if b == [] then false
    else if a[0] != b[0] then a[0] < b[0]
    else LexLess(a[1..], b[1..])
  }

  /** The order is strict, transitive and total, so "greater key" is a sound notion of "newer". */
  lemma {:induction false} LexLessIrreflexive(a: seq<int>)
    ensures !LexLess(a, a)
  {
    if a != [] {
      LexLessIrreflexive(a[1..]);
    }
  }

  lemma {:induction false} LexLessTransitive(a: seq<int>, b: seq<int>, c: seq<int>)
    requires LexLess(a, b) && LexLess(b, c)
    ensures LexLess(a, c)
  {
    if a != [] && b != [] && c != [] && a[0] == b[0] && b[0] == c[0] {
      LexLessTransitive(a[1..], b[1..], c[1..]);
    }
  }

  lemma {:induction false} LexLessTotal(a: seq<int>, b: seq<int>)
    ensures a == b || LexLess(a, b) || LexLess(b, a)
  {
    if a != [] && b != [] && a[0] == b[0] {
      LexLessTotal(a[1..], b[1..]);
      if a[1..] == b[1..] {
        assert a == [a[0]] + a[1..] && b == [b[0]] + b[1..];
      }
    }
  }

  /** `1.10` is newer than `1.9`: keys compare by number, not by text. */
  lemma NumericOrderExample()
    ensures VersionKey("1.10") == [1, 10] && VersionKey("1.9") == [1, 9]
    ensures LexLess(VersionKey("1.9"), VersionKey("1.10"))
  {
    VersionKeyOfDotted([1, 10]);
    VersionKeyOfDotted([1, 9]);
    assert NatDecimal(10) == NatDecimal(1) + [DigitChar(0)];
    assert NatDecimal(1) == "1" && NatDecimal(9) == "9" && NatDecimal(10) == "10";
    assert seq(2, k requires 0 <= k < 2 => NatDecimal([1, 10][k])) == ["1", "10"];
    assert seq(2, k requires 0 <= k < 2 => NatDecimal([1, 9][k])) == ["1", "9"];
    assert Join(["1", "10"], ".") == "1.10" by { assert ["1", "10"][1..] == ["10"]; }
    assert Join(["1", "9"], ".") == "1.9" by { assert ["1", "9"][1..] == ["9"]; }
  }

  // ---------------------------------------------------------------- descriptor

  /** One line of the update descriptor. */
  datatype UpdateEntry = UpdateEntry(version: string, osTag: string, flags: seq<string>, downloadUrl: string)

  /** The separators of the flags field: commas and whitespace. */
  predicate IsFlagSep(c: char) {
    c == ',' || IsSpace(c)
  }

  predicate IsFlagChar(c: char) {
    !IsFlagSep(c)
  }

  /** A flag as `_parse_flags` gives it: non-empty, no comma and no whitespace. */
  predicate IsFlag(f: string) {
    f != [] && forall i :: 0 <= i < |f| ==> IsFlagChar(f[i])
  }

  predicate AllFlags(flags: seq<string>) {
    forall k :: 0 <= k < |flags| ==> IsFlag(flags[k])
  }

  /** `_parse_flags`: nothing for a blank field, else the maximal runs between commas and whitespace. */
  function ParseFlags(s: string): (flags: seq<string>)
    ensures AllFlags(flags)
    ensures Strip(s) == [] ==> flags == []
  {
    var t := Strip(s);
    if t == [] then [] else Runs(t, IsFlagChar)
  }

  /** Flags written out comma-separated are read back as they were. */
  lemma ParseFlagsOfJoin(flags: seq<string>)
    requires AllFlags(flags)
    ensures ParseFlags(Join(flags, ",")) == flags
  {
    if flags != [] {
      FlagsJoinStripped(flags);
      FlagsJoinRuns(flags);
    }
  }

  /** A comma-join of flags has no space at either end. */
  lemma FlagsJoinStripped(flags: seq<string>)
    requires flags != [] && AllFlags(flags)
    ensures Join(flags, ",") != [] && Strip(Join(flags, ",")) == Join(flags, ",")
  {
    forall k | 0 <= k < |flags|
      ensures flags[k] != []
    {
      assert IsFlag(flags[k]);
    }
    JoinEnds(flags, ",");
    assert IsFlag(flags[0]) && IsFlag(flags[|flags| - 1]);
    StripClean(Join(flags, ","));
  }

  /** The runs of flag characters in a comma-join of flags are the flags. */
  lemma FlagsJoinRuns(flags: seq<string>)
    requires flags != [] && AllFlags(flags)
    ensures Runs(Join(flags, ","), IsFlagChar) == flags
  {
    forall k | 0 <= k < |flags|
      ensures flags[k] != [] && forall i :: 0 <= i < |flags[k]| ==> IsFlagChar(flags[k][i])
    {
      assert IsFlag(flags[k]);
    }
    RunsOfJoin(flags, ',', IsFlagChar);
  }

  /** A join of non-empty parts starts with the first part's first character and ends with the last part's last. */
  lemma {:induction false} JoinEnds(parts: seq<string>, sep: string)
    requires |parts| > 0 && forall k :: 0 <= k < |parts| ==> parts[k] != []
    ensures |Join(parts, sep)| > 0
    ensures Join(parts, sep)[0] == parts[0][0]
    ensures Join(parts, sep)[|Join(parts, sep)| - 1] == parts[|parts| - 1][|parts[|parts| - 1]| - 1]
  {
    if |parts| > 1 {
      var t := Join(parts[1..], sep);
      JoinEnds(parts[1..], sep);
      assert Join(parts, sep) == parts[0] + sep + t;
      assert parts[1..][|parts| - 2] == parts[|parts| - 1];
    }
  }

  /** A character in none of the parts nor in the separator is not in their join. */
  lemma {:induction false} JoinFree(parts: seq<string>, sep: string, c: char)
    requires c !in sep && forall k :: 0 <= k < |parts| ==> c !in parts[k]
    ensures c !in Join(parts, sep)
  {
    if |parts| > 1 {
      JoinFree(parts[1..], sep, c);
    }
  }

  /** The text of a line before its first `#`. */
  function BeforeComment(line: string): (r: string)
    ensures '#' !in r
    ensures '#' !in line ==> r == line
  {
    SplitOnFreeFirst(line, '#');
    SplitOn(line, '#')[0]
  }

  lemma SplitOnFreeFirst(line: string, sep: char)
    ensures sep !in line ==> SplitOn(line, sep)[0] == line
  {
    if sep !in line {
      SplitOnFree(line, sep);
    }
  }

  /**
   * The text of a raw line that can carry an entry: nothing for a blank line or a `#` line,
   * else the stripped line with any trailing comment dropped and stripped again.
   */
  function LineBody(raw: string): (body: string)
    ensures '#' !in body
    ensures Strip(raw) == [] || Strip(raw)[0] == '#' ==> body == []
    ensures Strip(raw) != [] && '#' !in Strip(raw) ==> body == Strip(raw)
  {
    var line := Strip(raw);
    if line == [] || line[0] == '#' then []
    else if '#' in line then
      StripInside(BeforeComment(line), '#');
      Strip(BeforeComment(line))
    else line
  }

  /** The stripped `|`-separated fields of a line body. */
  function Fields(body: string): seq<string> {
    var fields := SplitOn(body, '|');
    seq(|fields|, k requires 0 <= k < |fields| => Strip(fields[k]))
  }

  /** No field holds a `|`, and none holds a `#` when the body has none. */
  lemma FieldsClean(body: string)
    ensures forall k :: 0 <= k < |Fields(body)| ==> '|' !in Fields(body)[k]
    ensures '#' !in body ==> forall k :: 0 <= k < |Fields(body)| ==> '#' !in Fields(body)[k]
  {
    var fields := SplitOn(body, '|');
    forall k | 0 <= k < |fields|
      ensures '|' !in Fields(body)[k]
      ensures '#' !in body ==> '#' !in Fields(body)[k]
    {
      StripInside(fields[k], '|');
      StripInside(fields[k], '#');
      if '#' !in body {
        JoinPartFree(fields, ['|'], k, '#');
      }
    }
  }

  /** A character missing from a join is missing from each part. */
  lemma {:induction false} JoinPartFree(parts: seq<string>, sep: string, k: int, c: char)
    requires 0 <= k < |parts| && c !in Join(parts, sep)
    ensures c !in parts[k]
  {
    if k > 0 {
      JoinPartFree(parts[1..], sep, k - 1, c);
    }
  }

  /**
   * One iteration of `_parse_descriptor`'s loop on the raw line `raw`: blank lines and `#` lines
   * give nothing; a trailing comment is dropped; the rest is split at `|` and each field
   * stripped; with at least four fields and a non-empty version, OS and URL the entry has the
   * OS lowercased and the flags parsed.
   */
  function EntryOfLine(raw: string): (r: Option<UpdateEntry>)
    ensures r.Some? ==> r.value.version != [] && r.value.osTag != [] && r.value.downloadUrl != []
    ensures LineBody(raw) == [] ==> r.None?
  {
    var body := LineBody(raw);
    if body == [] then None
    else
      var parts := Fields(body);
      if |parts| < 4 then None
      else
        var version := parts[0];
        var osTag := Lower(parts[1]);
        var url := parts[3];
        if version == [] || osTag == [] || url == [] then None
        else Some(UpdateEntry(version, osTag, ParseFlags(parts[2]), url))
  }

  /**
   * Blank and `#` lines give no entry; an entry has a non-empty version, OS and URL, a
   * lowercase OS, and no `|` or `#` in its version and URL.
   */
  lemma EntryOfLineSound(raw: string)
    ensures Strip(raw) == [] || Strip(raw)[0] == '#' ==> EntryOfLine(raw).None?
    ensures var r := EntryOfLine(raw);
            r.Some? ==> && r.value.version != [] && r.value.osTag != [] && r.value.downloadUrl != []
                        && Lower(r.value.osTag) == r.value.osTag
                        && '#' !in r.value.version && '|' !in r.value.version
                        && '#' !in r.value.downloadUrl && '|' !in r.value.downloadUrl
  {
    var body := LineBody(raw);
    if body != [] {
      FieldsClean(body);
      var parts := Fields(body);
      if |parts| >= 2 {
        LowerIdempotent(parts[1]);
      }
    }
  }

  /** Stripping only removes characters: a character not in `s` is not in `Strip(s)`. */
  lemma StripInside(s: string, c: char)
    ensures c !in s ==> c !in Strip(s)
  {
    var t := RStrip(s);
    assert Strip(s) == t[|t| - |Strip(s)|..];
    if c in Strip(s) {
      var i :| 0 <= i < |Strip(s)| && Strip(s)[i] == c;
      assert t[|t| - |Strip(s)| + i] == c;
      assert s[|t| - |Strip(s)| + i] == c;
    }
  }

  /** The descriptor line that states `e`. */
  function EntryLine(e: UpdateEntry): string {
    Join([e.version, e.osTag, Join(e.flags, ","), e.downloadUrl], "|")
  }

  /** A field that reads back as itself: non-empty, no `|` or `#`, no space at either end. */
  predicate CleanField(s: string) {
    && s != [] && '|' !in s && '#' !in s
    && !IsSpace(s[0]) && !IsSpace(s[|s| - 1])
  }

  /** An entry that a descriptor line can state. */
  predicate CleanEntry(e: UpdateEntry) {
    && CleanField(e.version) && CleanField(e.osTag) && CleanField(e.downloadUrl)
    && Lower(e.osTag) == e.osTag
    && AllFlags(e.flags)
    && forall k :: 0 <= k < |e.flags| ==> '|' !in e.flags[k] && '#' !in e.flags[k]
  }

  /** Writing an entry as a descriptor line and parsing that line gives the entry back. */
  lemma EntryLineReadsBack(e: UpdateEntry)
    requires CleanEntry(e)
    ensures EntryOfLine(EntryLine(e)) == Some(e)
  {
    CleanLine(e);
    EntryOfFields(EntryLine(e), e);
  }

  /** A clean entry's line is its own body, and its fields are the entry's, the flags parsed back. */
  lemma CleanLine(e: UpdateEntry)
    requires CleanEntry(e)
    ensures LineBody(EntryLine(e)) != []
    ensures FieldsState(Fields(LineBody(EntryLine(e))), e)
  {
    CleanLineBody(e);
    CleanLineFields(e);
    ParseFlagsOfJoin(e.flags);
  }

  /** The fields `parts` state the entry `e`, whose version, OS and URL are non-empty. */
  predicate FieldsState(parts: seq<string>, e: UpdateEntry) {
    && |parts| >= 4 && parts[0] == e.version && Lower(parts[1]) == e.osTag
    && ParseFlags(parts[2]) == e.flags && parts[3] == e.downloadUrl
    && e.version != [] && e.osTag != [] && e.downloadUrl != []
  }

  /** A line whose body's fields state `e` gives `e`. */
  lemma EntryOfFields(raw: string, e: UpdateEntry)
    requires LineBody(raw) != [] && FieldsState(Fields(LineBody(raw)), e)
    ensures EntryOfLine(raw) == Some(e)
  {
  }

  /** A clean entry's line is its own body: nothing to strip and no comment. */
  lemma CleanLineBody(e: UpdateEntry)
    requires CleanEntry(e)
    ensures LineBody(EntryLine(e)) == EntryLine(e)
  {
    var flagsText := Join(e.flags, ",");
    JoinFree(e.flags, ",", '#');
    JoinFree([e.version, e.osTag, flagsText, e.downloadUrl], "|", '#');
    var line := EntryLine(e);
    JoinFour(e.version, e.osTag, flagsText, e.downloadUrl, "|");
    assert line[0] == e.version[0];
    assert line[|line| - 1] == e.downloadUrl[|e.downloadUrl| - 1];
    StripClean(line);
  }

  /** The join of four parts written out. */
  lemma JoinFour(a: string, b: string, c: string, d: string, sep: string)
    ensures Join([a, b, c, d], sep) == a + sep + b + sep + c + sep + d
  {
    assert [a, b, c, d][1..] == [b, c, d];
    assert [b, c, d][1..] == [c, d];
    assert [c, d][1..] == [d];
    assert Join([c, d], sep) == c + sep + d;
    assert Join([b, c, d], sep) == b + sep + (c + sep + d);
    assert Join([a, b, c, d], sep) == a + sep + (b + sep + (c + sep + d));
  }

  /** A clean entry's line splits back into its four fields, each already stripped. */
  lemma CleanLineFields(e: UpdateEntry)
    requires CleanEntry(e)
    ensures var fields := Fields(EntryLine(e));
            && |fields| == 4 && fields[0] == e.version && fields[1] == e.osTag
            && fields[2] == Join(e.flags, ",") && fields[3] == e.downloadUrl
  {
    var flagsText := Join(e.flags, ",");
    JoinFree(e.flags, ",", '|');
    if e.flags != [] {
      JoinEnds(e.flags, ",");
    }
    var parts := [e.version, e.osTag, flagsText, e.downloadUrl];
    assert parts[2] == flagsText;
    assert forall k :: 0 <= k < |parts| ==> '|' !in parts[k];
    assert forall k :: 0 <= k < |parts| ==> parts[k] == [] || (!IsSpace(parts[k][0]) && !IsSpace(parts[k][|parts[k]| - 1]));
    FieldsOfStripped(parts);
    assert EntryLine(e) == Join(parts, "|");
  }

  /** Parts without `|` and without space at their ends are the fields of their `|`-join. */
  lemma FieldsOfStripped(parts: seq<string>)
    requires |parts| > 0
    requires forall k :: 0 <= k < |parts| ==> '|' !in parts[k]
    requires forall k :: 0 <= k < |parts| ==> parts[k] == [] || (!IsSpace(parts[k][0]) && !IsSpace(parts[k][|parts[k]| - 1]))
    ensures Fields(Join(parts, "|")) == parts
  {
    SplitOnJoin(parts, '|');
    forall k | 0 <= k < |parts|
      ensures Strip(parts[k]) == parts[k]
    {
      StripClean(parts[k]);
    }
  }

  /** The values of the `Some` results, in order. */
  function Somes(rs: seq<Option<UpdateEntry>>): seq<UpdateEntry>
  {
    if rs == [] then []
    else
      var n := |rs| - 1;
      Somes(rs[..n]) + (if rs[n].Some? then [rs[n].value] else [])
  }

  /** An entry is kept exactly when it is one of the results. */
  lemma {:induction false} SomesSpec(rs: seq<Option<UpdateEntry>>)
    ensures forall e :: e in Somes(rs) <==> Some(e) in rs
    ensures |Somes(rs)| <= |rs|
  {
    if rs != [] {
      var n := |rs| - 1;
      SomesSpec(rs[..n]);
      assert rs == rs[..n] + [rs[n]];
    }
  }

  /** Taking one more result adds its value, if it has one. */
  lemma SomesStep(rs: seq<Option<UpdateEntry>>, i: int)
    requires 0 <= i < |rs|
    ensures Somes(rs[..i + 1]) == Somes(rs[..i]) + (if rs[i].Some? then [rs[i].value] else [])
  {
    assert rs[..i + 1][..i] == rs[..i];
  }

  /** What each line gives, in line order. */
  function LineResults(lines: seq<string>): (rs: seq<Option<UpdateEntry>>)
    ensures |rs| == |lines|
    ensures forall k :: 0 <= k < |lines| ==> rs[k] == EntryOfLine(lines[k])
  {
    seq(|lines|, k requires 0 <= k < |lines| => EntryOfLine(lines[k]))
  }

  /** The entries of a descriptor: those its lines give, in line order. */
  function DescriptorEntries(text: string): seq<UpdateEntry> {
    Somes(LineResults(SplitLines(text)))
  }

  /** Every entry of the descriptor comes from one of its lines. */
  lemma DescriptorEntriesSound(text: string, e: UpdateEntry) returns (k: int)
    requires e in DescriptorEntries(text)
    ensures 0 <= k < |SplitLines(text)| && EntryOfLine(SplitLines(text)[k]) == Some(e)
  {
    var rs := LineResults(SplitLines(text));
    SomesSpec(rs);
    k :| 0 <= k < |rs| && rs[k] == Some(e);
  }

  /** Every line that gives an entry contributes it to the descriptor. */
  lemma DescriptorEntriesComplete(text: string, k: int)
    requires 0 <= k < |SplitLines(text)| && EntryOfLine(SplitLines(text)[k]).Some?
    ensures EntryOfLine(SplitLines(text)[k]).value in DescriptorEntries(text)
  {
    var rs := LineResults(SplitLines(text));
    SomesSpec(rs);
    assert rs[k] in rs;
  }

  /** `_parse_descriptor`: the loop over the descriptor's lines, collecting each line's entry. */
  method ParseDescriptor(text: string) returns (out: seq<UpdateEntry>)
    ensures out == DescriptorEntries(text)
  {
    var lines := SplitLines(text);
    ghost var rs := LineResults(lines);
    out := [];
    for i := 0 to |lines|
      invariant out == Somes(rs[..i])
    {
      SomesStep(rs, i);
      var r := EntryOfLine(lines[i]);
      if r.Some? {
        out := out + [r.value];
      }
    }
    assert rs[..|lines|] == rs;
  }

  // ---------------------------------------------------------------- raw link rewrite

  /** A URL as far as the rewrite looks at it: the host and the `/`-separated path segments. */
  datatype Url = Url(host: string, path: seq<string>)

  const GithubHost: string := "github.com"
  const RawHost: string := "raw.githubusercontent.com"

  /** The non-empty segments, in order: `[p for p in path.split("/") if p]`. */
  function NonEmpty(segments: seq<string>): (r: seq<string>)
    ensures |r| <= |segments|
    ensures forall k :: 0 <= k < |r| ==> r[k] != []
    ensures (forall k :: 0 <= k < |segments| ==> segments[k] != []) ==> r == segments
  {
    if segments == [] then []
    else
      var n := |segments| - 1;
      var r := NonEmpty(segments[..n]) + (if segments[n] != [] then [segments[n]] else []);
      assert segments == segments[..n] + [segments[n]];
      r
  }

  /**
   * `_rewrite_github_raw_url`: a `github.com/<owner>/<repo>/raw/<ref>/<file...>` link, or one
   * with `raw/refs/heads/<ref>`, becomes `raw.githubusercontent.com/<owner>/<repo>/<ref>/<file...>`;
   * anything else gives `None`.
   */
  function RewriteGithubRawUrl(u: Url): (r: Option<Url>)
    ensures r.Some? ==> && Lower(u.host) == GithubHost
                        && |NonEmpty(u.path)| >= 5 && NonEmpty(u.path)[2] == "raw"
                        && r.value.host == RawHost
                        && |r.value.path| >= 4
                        && r.value.path[..2] == NonEmpty(u.path)[..2]
                        && forall k :: 0 <= k < |r.value.path| ==> r.value.path[k] != []
  {
    if Lower(u.host) != GithubHost then None
    else
      var parts := NonEmpty(u.path);
      if |parts| < 5 then None
      else if parts[2] != "raw" then None
      else
        var rest := parts[3..];
        var refsHeads := |rest| >= 3 && rest[0] == "refs" && rest[1] == "heads";
        var ref := if refsHeads then rest[2] else rest[0];
        var file := if refsHeads then rest[3..] else rest[1..];
        if ref == [] || file == [] then None
        else Some(Url(RawHost, [parts[0], parts[1], ref] + file))
  }

  lemma GithubHostLower()
    ensures Lower(GithubHost) == GithubHost
  {
  }

  /** The plain form: `github.com/<owner>/<repo>/raw/<ref>/<file...>` keeps owner, repo, ref and file. */
  lemma RewritePlainRef(owner: string, repo: string, ref: string, file: seq<string>)
    requires owner != [] && repo != [] && ref != [] && file != []
    requires forall k :: 0 <= k < |file| ==> file[k] != []
    requires !(ref == "refs" && |file| >= 2 && file[0] == "heads")
    ensures RewriteGithubRawUrl(Url(GithubHost, [owner, repo, "raw", ref] + file))
            == Some(Url(RawHost, [owner, repo, ref] + file))
  {
    var path := [owner, repo, "raw", ref] + file;
    GithubHostLower();
    assert forall k :: 0 <= k < |path| ==> path[k] != [];
    assert NonEmpty(path) == path;
    assert path[3..] == [ref] + file;
    assert ([ref] + file)[1..] == file;
  }

  /** The branch form: `raw/refs/heads/<ref>` is reduced to `<ref>`. */
  lemma RewriteRefsHeads(owner: string, repo: string, ref: string, file: seq<string>)
    requires owner != [] && repo != [] && ref != [] && file != []
    requires forall k :: 0 <= k < |file| ==> file[k] != []
    ensures RewriteGithubRawUrl(Url(GithubHost, [owner, repo, "raw", "refs", "heads", ref] + file))
            == Some(Url(RawHost, [owner, repo, ref] + file))
  {
    var path := [owner, repo, "raw", "refs", "heads", ref] + file;
    GithubHostLower();
    assert forall k :: 0 <= k < |path| ==> path[k] != [];
    assert NonEmpty(path) == path;
    var rest := path[3..];
    assert rest == ["refs", "heads", ref] + file;
    assert rest[0] == "refs" && rest[1] == "heads" && rest[2] == ref;
    assert rest[3..] == file;
  }

  /** A link elsewhere, or one naming no file after the ref, is not rewritten. */
  lemma RewriteRejects(u: Url)
    ensures Lower(u.host) != GithubHost ==> RewriteGithubRawUrl(u).None?
    ensures |NonEmpty(u.path)| < 5 ==> RewriteGithubRawUrl(u).None?
  {
  }

  // ---------------------------------------------------------------- status

  /** `UpdateStatus`: what a check concluded for this OS and version. */
  datatype UpdateStatus = UpdateStatus(
    osTag: string, currentVersion: string, latest: Option<UpdateEntry>,
    updateAvailable: bool, currentDeprecated: bool)

  /** The entries for one OS, in order: `[e for e in entries if e.os_tag.lower() == os_tag]`. */
  function ForOs(entries: seq<UpdateEntry>, osTag: string): seq<UpdateEntry>
  {
    if entries == [] then []
    else
      var n := |entries| - 1;
      ForOs(entries[..n], osTag) + (if Lower(entries[n].osTag) == osTag then [entries[n]] else [])
  }

  /** An entry is for the OS exactly when it is listed and its lowercased tag is the OS's. */
  lemma {:induction false} ForOsSpec(entries: seq<UpdateEntry>, osTag: string)
    ensures forall e :: e in ForOs(entries, osTag) <==> e in entries && Lower(e.osTag) == osTag
    ensures |ForOs(entries, osTag)| <= |entries|
  {
    if entries != [] {
      var n := |entries| - 1;
      ForOsSpec(entries[..n], osTag);
      assert entries == entries[..n] + [entries[n]];
    }
  }

  /** The version key of an entry. */
  function Key(e: UpdateEntry): seq<int> {
    VersionKey(e.version)
  }

  /** The keys of the entries, in order. */
  function KeysOf(es: seq<UpdateEntry>): (keys: seq<seq<int>>)
    ensures |keys| == |es|
    ensures forall k :: 0 <= k < |es| ==> keys[k] == Key(es[k])
  {
    seq(|es|, k requires 0 <= k < |es| => Key(es[k]))
  }

  /**
   * The index `max(..., key=...)` picks: the first key, replaced by each later key that is
   * strictly greater.
   */
  function FirstMaxIndex(keys: seq<seq<int>>): (i: int)
    requires keys != []
    ensures 0 <= i < |keys|
  {
    if |keys| == 1 then 0
    else
      var n := |keys| - 1;
      var best := FirstMaxIndex(keys[..n]);
      if LexLess(keys[best], keys[n]) then n else best
  }

  /** `i` is the first maximal key: no key is greater and every earlier key is smaller. */
  predicate IsFirstMax(keys: seq<seq<int>>, i: int) {
    && 0 <= i < |keys|
    && (forall j :: 0 <= j < |keys| ==> !LexLess(keys[i], keys[j]))
    && (forall j :: 0 <= j < i ==> LexLess(keys[j], keys[i]))
  }

  lemma LexLessAsymmetric(a: seq<int>, b: seq<int>)
    requires LexLess(a, b)
    ensures !LexLess(b, a)
  {
    if LexLess(b, a) {
      LexLessTransitive(a, b, a);
      LexLessIrreflexive(a);
    }
  }

  /** A key that is not greater than `m` is `m` or smaller, so anything above `m` is above it too. */
  lemma BelowMax(k: seq<int>, m: seq<int>, c: seq<int>)
    requires !LexLess(m, k) && LexLess(m, c)
    ensures LexLess(k, c)
  {
    LexLessTotal(k, m);
    if k != m {
      LexLessTransitive(k, m, c);
    }
  }

  /** `max` picks the first maximal key. */
  lemma {:induction false} FirstMaxIndexSpec(keys: seq<seq<int>>)
    requires keys != []
    ensures IsFirstMax(keys, FirstMaxIndex(keys))
  {
    if |keys| == 1 {
      LexLessIrreflexive(keys[0]);
    } else {
      var n := |keys| - 1;
      var pre := keys[..n];
      FirstMaxIndexSpec(pre);
      var best := FirstMaxIndex(pre);
      assert pre[best] == keys[best];
      if LexLess(keys[best], keys[n]) {
        forall j | 0 <= j < n
          ensures LexLess(keys[j], keys[n])
        {
          assert pre[j] == keys[j];
          BelowMax(keys[j], keys[best], keys[n]);
        }
        forall j | 0 <= j < |keys|
          ensures !LexLess(keys[n], keys[j])
        {
          if j < n {
            LexLessAsymmetric(keys[j], keys[n]);
          } else {
            LexLessIrreflexive(keys[n]);
          }
        }
      } else {
        forall j | 0 <= j < |keys|
          ensures !LexLess(keys[best], keys[j])
        {
          if j < n {
            assert pre[j] == keys[j];
          }
        }
        forall j | 0 <= j < best
          ensures LexLess(keys[j], keys[best])
        {
          assert pre[j] == keys[j];
        }
      }
    }
  }

  /** `max(os_entries, key=..., default=None)`. */
  function Latest(os: seq<UpdateEntry>): (r: Option<UpdateEntry>)
    ensures r.None? <==> os == []
    ensures r.Some? ==> r.value in os && forall k :: 0 <= k < |os| ==> !LexLess(Key(r.value), Key(os[k]))
  {
    if os == [] then None
    else
      var keys := KeysOf(os);
      FirstMaxIndexSpec(keys);
      Some(os[FirstMaxIndex(keys)])
  }

  /** `any(f.lower() == "deprecated" for f in e.flags)`. */
  predicate HasDeprecatedFlag(e: UpdateEntry) {
    exists k :: 0 <= k < |e.flags| && Lower(e.flags[k]) == "deprecated"
  }

  /** The entry the deprecation loop stops at has the current key and the current version text. */
  predicate MatchesCurrent(e: UpdateEntry, current: string) {
    Key(e) == VersionKey(current) && Strip(e.version) == Strip(current)
  }

  /** Which entries match the current version, in order. */
  function MatchFlags(os: seq<UpdateEntry>, current: string): (bs: seq<bool>)
    ensures |bs| == |os|
    ensures forall k :: 0 <= k < |os| ==> bs[k] == MatchesCurrent(os[k], current)
  {
    seq(|os|, k requires 0 <= k < |os| => MatchesCurrent(os[k], current))
  }

  /** The index of the first `true` from `i` on. */
  function FirstTrueFrom(bs: seq<bool>, i: nat): (r: Option<int>)
    requires i <= |bs|
    ensures r.Some? ==> i <= r.value < |bs|
    decreases |bs| - i
  {
    if i == |bs| then None
    else if bs[i] then Some(i)
    else FirstTrueFrom(bs, i + 1)
  }

  /** The index found is the first `true` from `i` on, and none is found only when there is none. */
  lemma {:induction false} FirstTrueFromSpec(bs: seq<bool>, i: nat)
    requires i <= |bs|
    ensures var r := FirstTrueFrom(bs, i);
            && (r.Some? ==> bs[r.value] && forall j :: i <= j < r.value ==> !bs[j])
            && (r.None? ==> forall j :: i <= j < |bs| ==> !bs[j])
    decreases |bs| - i
  {
    if i < |bs| && !bs[i] {
      FirstTrueFromSpec(bs, i + 1);
    }
  }

  /** The first `true` from `k` on is the `i` that is `true` with only `false` between `k` and `i`. */
  lemma {:induction false} FirstTrueAt(bs: seq<bool>, k: nat, i: int)
    requires k <= i < |bs| && bs[i]
    requires forall j :: k <= j < i ==> !bs[j]
    ensures FirstTrueFrom(bs, k) == Some(i)
    decreases i - k
  {
    if k < i {
      FirstTrueAt(bs, k + 1, i);
    }
  }

  /** With only `false` from `k` on, nothing is found. */
  lemma {:induction false} FirstTrueNone(bs: seq<bool>, k: nat)
    requires k <= |bs| && forall j :: k <= j < |bs| ==> !bs[j]
    ensures FirstTrueFrom(bs, k).None?
    decreases |bs| - k
  {
    if k < |bs| {
      FirstTrueNone(bs, k + 1);
    }
  }

  /** `current_deprecated`: the first entry matching the current version carries the `deprecated` flag. */
  predicate CurrentDeprecated(os: seq<UpdateEntry>, current: string) {
    var m := FirstTrueFrom(MatchFlags(os, current), 0);
    m.Some? && HasDeprecatedFlag(os[m.value])
  }

  /** `_compute_status` as a value. */
  function Status(osTag: string, current: string, entries: seq<UpdateEntry>): (r: UpdateStatus)
    ensures r.updateAvailable ==> r.latest.Some? && LexLess(VersionKey(current), Key(r.latest.value))
    ensures r.latest.Some? ==> r.latest.value in entries && Lower(r.latest.value.osTag) == osTag
  {
    var os := ForOs(entries, osTag);
    ForOsSpec(entries, osTag);
    var latest := Latest(os);
    var curKey := VersionKey(current);
    var latestKey := if latest.Some? then Key(latest.value) else curKey;
    UpdateStatus(osTag, current, latest, latest.Some? && LexLess(curKey, latestKey), CurrentDeprecated(os, current))
  }

  /**
   * `_compute_status`: the latest entry for the OS, whether its key is above the current one,
   * and the loop that stops at the first entry matching the current version.
   */
  method ComputeStatus(osTag: string, current: string, entries: seq<UpdateEntry>) returns (st: UpdateStatus)
    ensures st == Status(osTag, current, entries)
  {
    var os := ForOs(entries, osTag);
    var latest := Latest(os);
    var curKey := VersionKey(current);
    var latestKey := if latest.Some? then Key(latest.value) else curKey;
    var deprecated := DeprecationScan(os, current);
    st := UpdateStatus(osTag, current, latest, latest.Some? && LexLess(curKey, latestKey), deprecated);
  }

  /** The loop of `_compute_status` over the OS's entries, stopping at the first match. */
  method DeprecationScan(os: seq<UpdateEntry>, current: string) returns (deprecated: bool)
    ensures deprecated == CurrentDeprecated(os, current)
  {
    ghost var bs := MatchFlags(os, current);
    deprecated := false;
    var i := 0;
    while i < |os|
      invariant 0 <= i <= |os|
      invariant FirstTrueFrom(bs, 0) == FirstTrueFrom(bs, i)
      invariant !deprecated
    {
      if MatchesCurrent(os[i], current) {
        deprecated := HasDeprecatedFlag(os[i]);
        break;
      }
      i := i + 1;
    }
  }

  /** An available update is an entry for the OS, in fact the latest, whose key is above the current one. */
  lemma StatusUpdateAvailableSound(osTag: string, current: string, entries: seq<UpdateEntry>) returns (e: UpdateEntry)
    requires Status(osTag, current, entries).updateAvailable
    ensures Status(osTag, current, entries).latest == Some(e)
    ensures e in entries && Lower(e.osTag) == osTag && LexLess(VersionKey(current), Key(e))
  {
    var os := ForOs(entries, osTag);
    ForOsSpec(entries, osTag);
    e := os[FirstMaxIndex(KeysOf(os))];
  }

  /** Any entry for the OS with a key above the current one makes an update available. */
  lemma StatusUpdateAvailableComplete(osTag: string, current: string, entries: seq<UpdateEntry>, e: UpdateEntry)
    requires e in entries && Lower(e.osTag) == osTag && LexLess(VersionKey(current), Key(e))
    ensures Status(osTag, current, entries).updateAvailable
  {
    var os := ForOs(entries, osTag);
    ForOsSpec(entries, osTag);
    var j :| 0 <= j < |os| && os[j] == e;
    AboveMax(KeysOf(os), j, VersionKey(current));
  }

  /** A key below some key is below the first maximal one. */
  lemma AboveMax(keys: seq<seq<int>>, j: int, c: seq<int>)
    requires 0 <= j < |keys| && LexLess(c, keys[j])
    ensures LexLess(c, keys[FirstMaxIndex(keys)])
  {
    var m := FirstMaxIndex(keys);
    FirstMaxIndexSpec(keys);
    BelowMaxLeft(c, keys[j], keys[m]);
  }

  /** Anything below a key that is not above `m` is below `m`. */
  lemma BelowMaxLeft(c: seq<int>, k: seq<int>, m: seq<int>)
    requires LexLess(c, k) && !LexLess(m, k)
    ensures LexLess(c, m)
  {
    LexLessTotal(k, m);
    if k != m {
      LexLessTransitive(c, k, m);
    }
  }

  /** The latest entry is the first entry for the OS of maximal key, and there is one when the OS has any. */
  lemma StatusLatest(osTag: string, current: string, entries: seq<UpdateEntry>) returns (i: int)
    requires ForOs(entries, osTag) != []
    ensures IsFirstMax(KeysOf(ForOs(entries, osTag)), i)
    ensures Status(osTag, current, entries).latest == Some(ForOs(entries, osTag)[i])
  {
    var keys := KeysOf(ForOs(entries, osTag));
    i := FirstMaxIndex(keys);
    FirstMaxIndexSpec(keys);
  }

  /** With no entry for the OS there is no latest entry and no update. */
  lemma StatusNoEntries(osTag: string, current: string, entries: seq<UpdateEntry>)
    requires forall k :: 0 <= k < |entries| ==> Lower(entries[k].osTag) != osTag
    ensures Status(osTag, current, entries).latest.None?
    ensures !Status(osTag, current, entries).updateAvailable
    ensures !Status(osTag, current, entries).currentDeprecated
  {
    ForOsNone(entries, osTag);
  }

  lemma {:induction false} ForOsNone(entries: seq<UpdateEntry>, osTag: string)
    requires forall k :: 0 <= k < |entries| ==> Lower(entries[k].osTag) != osTag
    ensures ForOs(entries, osTag) == []
  {
    if entries != [] {
      ForOsNone(entries[..|entries| - 1], osTag);
    }
  }

  /** At most one index is the first maximal one, so the choice of `latest` is determined. */
  lemma FirstMaxUnique(keys: seq<seq<int>>, i: int, j: int)
    requires IsFirstMax(keys, i) && IsFirstMax(keys, j)
    ensures i == j
  {
    var ki, kj := keys[i], keys[j];
  }

  /** Deprecation is decided by the first OS entry matching the current version: its flags alone. */
  lemma StatusDeprecatedAt(osTag: string, current: string, entries: seq<UpdateEntry>, i: int)
    requires 0 <= i < |ForOs(entries, osTag)| && MatchesCurrent(ForOs(entries, osTag)[i], current)
    requires forall j :: 0 <= j < i ==> !MatchesCurrent(ForOs(entries, osTag)[j], current)
    ensures Status(osTag, current, entries).currentDeprecated <==> HasDeprecatedFlag(ForOs(entries, osTag)[i])
  {
    var bs := MatchFlags(ForOs(entries, osTag), current);
    FirstTrueAt(bs, 0, i);
  }

  /** With no OS entry matching the current version, the version is not deprecated. */
  lemma StatusNotDeprecated(osTag: string, current: string, entries: seq<UpdateEntry>)
    requires forall j :: 0 <= j < |ForOs(entries, osTag)| ==> !MatchesCurrent(ForOs(entries, osTag)[j], current)
    ensures !Status(osTag, current, entries).currentDeprecated
  {
    FirstTrueNone(MatchFlags(ForOs(entries, osTag), current), 0);
  }

  /** A deprecated status names the first entry matching the current version, and that entry carries the flag. */
  lemma StatusDeprecatedMeans(osTag: string, current: string, entries: seq<UpdateEntry>) returns (i: int)
    requires Status(osTag, current, entries).currentDeprecated
    ensures 0 <= i < |ForOs(entries, osTag)| && MatchesCurrent(ForOs(entries, osTag)[i], current)
    ensures forall j :: 0 <= j < i ==> !MatchesCurrent(ForOs(entries, osTag)[j], current)
    ensures HasDeprecatedFlag(ForOs(entries, osTag)[i])
  {
    var bs := MatchFlags(ForOs(entries, osTag), current);
    FirstTrueFromSpec(bs, 0);
    i := FirstTrueFrom(bs, 0).value;
  }

  /** A deprecated status always has a latest entry, so the dialog it asks for can open. */
  lemma StatusDeprecatedHasLatest(osTag: string, current: string, entries: seq<UpdateEntry>)
    requires Status(osTag, current, entries).currentDeprecated
    ensures Status(osTag, current, entries).latest.Some?
  {
  }

  // ---------------------------------------------------------------- showing

  /** `_should_show`, with `snooze` the stored snoozed version, empty when there is none. */
  function ShouldShow(st: UpdateStatus, snooze: string): (show: bool)
    ensures st.currentDeprecated ==> show
    ensures !st.currentDeprecated && (!st.updateAvailable || st.latest.None?) ==> !show
    ensures !st.currentDeprecated && st.latest.Some? && snooze != [] && Strip(snooze) == Strip(st.latest.value.version) ==> !show
    ensures show ==> st.currentDeprecated || (st.updateAvailable && st.latest.Some?)
  {
    if st.currentDeprecated then true
    else if !st.updateAvailable || st.latest.None? then false
    else if snooze != [] && Strip(snooze) == Strip(st.latest.value.version) then false
    else true
  }

  /** Snoozing the latest version, stored stripped as `_set_snooze_until` does, silences that status. */
  lemma SnoozeSilences(st: UpdateStatus)
    requires !st.currentDeprecated && st.latest.Some? && Strip(st.latest.value.version) != []
    ensures !ShouldShow(st, Strip(st.latest.value.version))
  {
    var v := Strip(st.latest.value.version);
    StripClean(v);
  }

  /** A snooze for another version does not silence an available update. */
  lemma SnoozeOtherVersion(st: UpdateStatus, snooze: string)
    requires !st.currentDeprecated && st.updateAvailable && st.latest.Some?
    requires Strip(snooze) != Strip(st.latest.value.version)
    ensures ShouldShow(st, snooze)
  {
  }

  /** What `pump` does with a fresh status: open the dialog, show a toast, or nothing. */
  datatype StatusAction = OpenDialog | ShowToast(text: string, isError: bool, seconds: real) | NoAction

  /**
   * The decision of `pump` for a fresh status when no dialog is open: a deprecated version, or an
   * update that is shown (a manual check overrides the snooze), opens the dialog; otherwise only
   * a manual (`interactive`) check reports with a toast.
   */
  function DecideStatus(st: UpdateStatus, snooze: string, interactive: bool, force: bool): (r: StatusAction)
    ensures r.ShowToast? ==> interactive && (r.isError <==> st.latest.None?)
    ensures r == OpenDialog ==> st.currentDeprecated || (st.updateAvailable && st.latest.Some?)
  {
    if st.currentDeprecated then OpenDialog
    else if st.updateAvailable && st.latest.Some? then
      if force || interactive || ShouldShow(st, snooze) then OpenDialog
      else if interactive then ShowToast("Update available (snoozed).", false, 2.5)
      else NoAction
    else if interactive then
      if st.latest.None? then ShowToast("No update entry for OS: " + st.osTag + ".", true, 3.0)
      else ShowToast("No updates available.", false, 2.5)
    else NoAction
  }

  /**
   * A background check (neither forced nor interactive) never shows a toast, and opens the dialog
   * exactly when `_should_show` says so.
   */
  lemma BackgroundCheck(st: UpdateStatus, snooze: string)
    ensures DecideStatus(st, snooze, false, false) != NoAction <==> ShouldShow(st, snooze)
    ensures DecideStatus(st, snooze, false, false) != NoAction ==> DecideStatus(st, snooze, false, false) == OpenDialog
  {
  }

  /** A manual check opens the dialog for any available update, snoozed or not, and for a deprecated version. */
  lemma ManualCheck(st: UpdateStatus, snooze: string, force: bool)
    requires st.currentDeprecated || (st.updateAvailable && st.latest.Some?)
    ensures DecideStatus(st, snooze, true, force) == OpenDialog
    ensures DecideStatus(st, snooze, false, true) == OpenDialog
  {
  }

  /** A manual check with nothing to offer always answers with a toast, an error when the OS has no entry. */
  lemma ManualCheckNothing(st: UpdateStatus, snooze: string, force: bool)
    requires !st.currentDeprecated && !(st.updateAvailable && st.latest.Some?)
    ensures DecideStatus(st, snooze, true, force).ShowToast?
    ensures DecideStatus(st, snooze, true, force).isError <==> st.latest.None?
  {
  }
}

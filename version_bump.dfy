/**
 * The release helper that bumps the version: it accepts an x.y.z version,
 * rewrites the version line of the README (or inserts one) and puts a new
 * entry on top of the changelog. Both documents are edited as arrays of
 * lines, split at and joined with newlines.
 */
module VersionBump {
  import opened Wrappers
  import opened Text

  // The version check.

  predicate IsDigits(s: string) {
    s != [] && forall c | c in s :: '0' <= c <= '9'
  }

  /** `/^\d+\.\d+\.\d+$/`: three runs of ASCII digits separated by single dots, nothing else. */
  predicate IsVersion(v: string) {
    var parts := Split(v, {'.'});
    |parts| == 3 && IsDigits(parts[0]) && IsDigits(parts[1]) && IsDigits(parts[2])
  }

  /** Three digit runs joined by dots form a version, and splitting it gives them back. */
  lemma VersionFromParts(a: string, b: string, c: string)
    requires IsDigits(a) && IsDigits(b) && IsDigits(c)
    ensures IsVersion(a + "." + b + "." + c)
    ensures Split(a + "." + b + "." + c, {'.'}) == [a, b, c]
  {
    JoinThree(a, b, c);
    SplitJoin([a, b, c], '.', {'.'});
  }

  /** Three strings joined with dots. */
  lemma JoinThree(a: string, b: string, c: string)
    ensures Join([a, b, c], '.') == a + "." + b + "." + c
  {
    var parts := [a, b, c];
    assert parts[1..] == [b, c] && parts[1..][1..] == [c];
    assert Join([b, c], '.') == b + "." + c;
  }

  /** A version is three digit runs joined by dots. */
  lemma VersionIsParts(v: string)
    requires IsVersion(v)
    ensures var parts := Split(v, {'.'}); v == parts[0] + "." + parts[1] + "." + parts[2]
  {
    var parts := Split(v, {'.'});
    JoinSplit(v, '.');
    assert parts[1..] == [parts[1], parts[2]] && parts[1..][1..] == [parts[2]];
    assert Join(parts[1..], '.') == parts[1] + "." + parts[2];
    assert Join(parts, '.') == parts[0] + "." + (parts[1] + "." + parts[2]);
  }

  // Finding lines.

  /** `findIndex` of the first line starting with `prefix`, or -1. */
  function FirstStarting(lines: seq<string>, prefix: string): (r: int)
    ensures -1 <= r < |lines|
    ensures r == -1 <==> forall k | 0 <= k < |lines| :: !StartsWith(lines[k], prefix)
    ensures r != -1 ==> StartsWith(lines[r], prefix) && forall k | 0 <= k < r :: !StartsWith(lines[k], prefix)
    decreases |lines|
  {
    if lines == [] then -1
    else if StartsWith(lines[0], prefix) then 0
    else
      var r := FirstStarting(lines[1..], prefix);
      if r == -1 then -1 else r + 1
  }

  /** No line before index `at` starts with `prefix`, and line `at` does: it is the first. */
  lemma FirstStartingAt(lines: seq<string>, prefix: string, at: int)
    requires 0 <= at < |lines| && StartsWith(lines[at], prefix)
    requires forall k | 0 <= k < at :: !StartsWith(lines[k], prefix)
    ensures FirstStarting(lines, prefix) == at
  {
  }

  // The README.

  const VersionPrefix: string := "Version: "
  const TaglineMarker: string := "Make YouTube play"

  /** The README line that names the version and links the changelog. */
  function VersionLine(version: string): string {
    VersionPrefix + version + " · Changelog: [docs/changelog.md](docs/changelog.md)"
  }

  /** Nothing but whitespace: what `trim()` turns into the empty string (`TrimEmptyIff`). */
  predicate IsBlank(s: string) {
    forall k | 0 <= k < |s| :: IsSpace(s[k])
  }

  /** Line `i` is blank and follows the tagline: where a missing version line goes. */
  predicate IsTaglineGap(lines: seq<string>, i: int) {
    0 < i < |lines| && IsBlank(lines[i]) && Contains(lines[i - 1], TaglineMarker)
  }

  /** The tagline-gap test on the indices of `lines`. */
  function GapTest(lines: seq<string>): nat -> bool {
    i => IsTaglineGap(lines, i)
  }

  /** The first tagline gap, or -1: what the second loop of `updateReadme` looks for. */
  function FirstGap(lines: seq<string>): (r: int)
    ensures r == -1 || 0 <= r < |lines|
  {
    FirstWhere(GapTest(lines), 0, |lines|)
  }

  /** `FirstGap` finds a gap exactly when there is one, and then the first. */
  lemma FirstGapIsFirst(lines: seq<string>)
    ensures FirstGap(lines) == -1 <==> forall i | 0 <= i < |lines| :: !IsTaglineGap(lines, i)
    ensures FirstGap(lines) != -1 ==> IsTaglineGap(lines, FirstGap(lines))
    ensures forall i | 0 <= i < FirstGap(lines) :: !IsTaglineGap(lines, i)
  {
    FirstWhereIsFirst(GapTest(lines), 0, |lines|);
    forall i: nat ensures GapTest(lines)(i) == IsTaglineGap(lines, i) {
    }
  }

  /** `xs.splice(at, 0, x)`. */
  function Splice(xs: seq<string>, at: nat, x: string): seq<string>
    requires at <= |xs|
  {
    xs[..at] + [x] + xs[at..]
  }

  /**
   * `updateReadme` on the lines of the README: replace the first version
   * line; failing that, insert the new one in the tagline gap; failing
   * that, at index 2, which `splice` clamps to the end of a shorter file.
   */
  function ReadmeLines(contents: seq<string>, versionLine: string): seq<string> {
    var v := FirstStarting(contents, VersionPrefix);
    if v != -1 then contents[v := versionLine]
    else
      var g := FirstGap(contents);
      if g != -1 then Splice(contents, g, versionLine)
      else Splice(contents, if |contents| < 2 then |contents| else 2, versionLine)
  }

  /** The README text `updateReadme` writes for `version`. */
  function ReadmeWritten(readme: string, version: string): string {
    Join(ReadmeLines(Split(readme, {'\n'}), VersionLine(version)), '\n')
  }

  /** `updateReadme` as written: the lines split at newlines, edited, joined again. */
  method UpdateReadme(readme: string, version: string) returns (written: string)
    ensures written == ReadmeWritten(readme, version)
  {
    var contents := Split(readme, {'\n'});
    contents := EditReadmeLines(contents, VersionLine(version));
    written := Join(contents, '\n');
  }

  /** The line edits of `updateReadme`: a loop for the version line, a loop for the tagline gap, then the fallback. */
  method EditReadmeLines(original: seq<string>, versionLine: string) returns (contents: seq<string>)
    ensures contents == ReadmeLines(original, versionLine)
  {
    contents := original;
    var replaced := false;
    var i := 0;
    while i < |contents|
      invariant 0 <= i <= |contents| && contents == original
      invariant forall k | 0 <= k < i :: !StartsWith(contents[k], VersionPrefix)
    {
      if StartsWith(contents[i], VersionPrefix) {
        FirstStartingAt(contents, VersionPrefix, i);
        contents := contents[i := versionLine];
        replaced := true;
        break;
      }
      i := i + 1;
    }
    if replaced {
      return;
    }
    assert FirstStarting(original, VersionPrefix) == -1;
    i := 0;
    while i < |contents|
      invariant 0 <= i <= |contents| && contents == original
      invariant forall k | 0 <= k < i :: !IsTaglineGap(contents, k)
    {
      TrimEmptyIff(contents[i]);
      if Trim(contents[i]) == "" && i > 0 && Contains(contents[i - 1], TaglineMarker) {
        FirstGapIsFirst(contents);
        assert IsTaglineGap(contents, i);
        assert FirstGap(original) == i;
        contents := Splice(contents, i, versionLine);
        replaced := true;
        break;
      }
      i := i + 1;
    }
    if !replaced {
      FirstGapIsFirst(contents);
      assert FirstGap(original) == -1;
      contents := Splice(contents, if |contents| < 2 then |contents| else 2, versionLine);
    }
  }

  /** Where the updated README's version line is: the first line starting with "Version: ". */
  function VersionLineIndex(contents: seq<string>): nat {
    var v := FirstStarting(contents, VersionPrefix);
    if v != -1 then v
    else
      var g := FirstGap(contents);
      if g != -1 then g else if |contents| < 2 then |contents| else 2
  }

  /** A README with a version line keeps its length: only its first version line changes. */
  lemma ReadmeReplacesFirst(contents: seq<string>, versionLine: string)
    requires exists k | 0 <= k < |contents| :: StartsWith(contents[k], VersionPrefix)
    ensures var r := ReadmeLines(contents, versionLine); var v := VersionLineIndex(contents);
      |r| == |contents| && v < |contents| && StartsWith(contents[v], VersionPrefix) && r[v] == versionLine
      && forall k | 0 <= k < |contents| && k != v :: r[k] == contents[k]
  {
  }

  /** A README without one gains exactly the version line; the other lines stay, in order. */
  lemma ReadmeInserts(contents: seq<string>, versionLine: string)
    requires forall k | 0 <= k < |contents| :: !StartsWith(contents[k], VersionPrefix)
    ensures var r := ReadmeLines(contents, versionLine); var at := VersionLineIndex(contents);
      |r| == |contents| + 1 && at < |r| && r[at] == versionLine && r[..at] + r[at + 1..] == contents
  {
    var r := ReadmeLines(contents, versionLine);
    var at := VersionLineIndex(contents);
    assert r == contents[..at] + [versionLine] + contents[at..];
    assert r[..at] == contents[..at] && r[at + 1..] == contents[at..];
  }

  /** After an update, the first version line of the README is the new one. */
  lemma ReadmeNamesVersion(contents: seq<string>, versionLine: string)
    requires StartsWith(versionLine, VersionPrefix)
    ensures FirstStarting(ReadmeLines(contents, versionLine), VersionPrefix) == VersionLineIndex(contents)
    ensures ReadmeLines(contents, versionLine)[VersionLineIndex(contents)] == versionLine
  {
    var r := ReadmeLines(contents, versionLine);
    var at := VersionLineIndex(contents);
    if FirstStarting(contents, VersionPrefix) == -1 {
      assert r == contents[..at] + [versionLine] + contents[at..];
      forall k | 0 <= k < at ensures !StartsWith(r[k], VersionPrefix) {
        assert r[k] == contents[k];
      }
    }
    FirstStartingAt(r, VersionPrefix, at);
  }

  /** Bumping twice is bumping once to the later version: the second run replaces the line the first one wrote. */
  lemma ReadmeBumpTwice(contents: seq<string>, first: string, second: string)
    requires StartsWith(first, VersionPrefix)
    ensures ReadmeLines(ReadmeLines(contents, first), second) == ReadmeLines(contents, second)
  {
    ReadmeNamesVersion(contents, first);
    var at := VersionLineIndex(contents);
    ReadmeReplacesAt(ReadmeLines(contents, first), second, at);
    if FirstStarting(contents, VersionPrefix) == -1 {
      SpliceReplaced(contents, at, first, second);
    }
  }

  /** A README whose first version line is line `at` has that line replaced. */
  lemma ReadmeReplacesAt(contents: seq<string>, versionLine: string, at: nat)
    requires at < |contents| && FirstStarting(contents, VersionPrefix) == at
    ensures ReadmeLines(contents, versionLine) == contents[at := versionLine]
  {
  }

  /** Replacing a spliced-in line is splicing in the replacement. */
  lemma SpliceReplaced(xs: seq<string>, at: nat, x: string, y: string)
    requires at <= |xs|
    ensures Splice(xs, at, x)[at := y] == Splice(xs, at, y)
  {
    assert Splice(xs, at, x)[at := y] == xs[..at] + [y] + xs[at..];
  }

  // The changelog.

  const HeadingPrefix: string := "## "

  /** The new entry's heading: the version, and the release phrase when one is given and not empty. */
  function Heading(version: string, phrase: Option<string>): (h: string)
    ensures StartsWith(h, HeadingPrefix + version)
    ensures h == HeadingPrefix + version <==> phrase.None? || phrase.value == ""
    ensures phrase.Some? && phrase.value != "" ==> EndsWith(h, " - " + phrase.value)
  {
    if phrase.Some? && phrase.value != "" then HeadingPrefix + version + " - " + phrase.value
    else HeadingPrefix + version
  }

  /** The four lines of a new changelog entry. */
  function EntryLines(heading: string): seq<string> {
    [heading, "", "- TBD", ""]
  }

  /**
   * `updateChangelog` on the lines of the changelog: the new entry goes
   * right before the first "## " heading, or after one blank line at the
   * end when there is no heading.
   */
  function ChangelogLines(lines: seq<string>, heading: string): seq<string> {
    var at := FirstStarting(lines, HeadingPrefix);
    if at == -1 then lines + [""] + EntryLines(heading)
    else lines[..at] + EntryLines(heading) + lines[at..]
  }

  /** The changelog text `updateChangelog` writes. */
  function ChangelogWritten(changelog: string, version: string, phrase: Option<string>): string {
    Join(ChangelogLines(Split(changelog, {'\n'}), Heading(version, phrase)), '\n')
  }

  /** `updateChangelog` as written. */
  method UpdateChangelog(changelog: string, version: string, phrase: Option<string>) returns (written: string)
    ensures written == ChangelogWritten(changelog, version, phrase)
  {
    var lines := Split(changelog, {'\n'});
    var heading := Heading(version, phrase);
    var insertIndex := FirstStarting(lines, HeadingPrefix);
    var entryLines := EntryLines(heading);
    if insertIndex == -1 {
      lines := lines + [""] + entryLines;
    } else {
      lines := lines[..insertIndex] + entryLines + lines[insertIndex..];
    }
    written := Join(lines, '\n');
  }

  /** Where the new entry starts. */
  function EntryIndex(lines: seq<string>): nat {
    var at := FirstStarting(lines, HeadingPrefix);
    if at == -1 then |lines| + 1 else at
  }

  /** The new entry's heading is the first heading of the updated changelog. */
  lemma ChangelogFirstHeading(lines: seq<string>, heading: string)
    requires StartsWith(heading, HeadingPrefix)
    ensures FirstStarting(ChangelogLines(lines, heading), HeadingPrefix) == EntryIndex(lines)
  {
    var r := ChangelogLines(lines, heading);
    var e := EntryIndex(lines);
    if FirstStarting(lines, HeadingPrefix) == -1 {
      assert r[e] == heading;
      assert r[|lines|] == "" && !StartsWith("", HeadingPrefix);
      forall k | 0 <= k < e ensures !StartsWith(r[k], HeadingPrefix) {
        if k < |lines| {
          assert r[k] == lines[k];
        }
      }
    } else {
      assert r[e] == heading;
      forall k | 0 <= k < e ensures !StartsWith(r[k], HeadingPrefix) {
        assert r[k] == lines[k];
      }
    }
    FirstStartingAt(r, HeadingPrefix, e);
  }

  /**
   * The entry's four lines sit at `EntryIndex`, and taking them out (with
   * the blank line added before them when there was no heading) leaves the
   * original lines in order.
   */
  lemma ChangelogKeepsLines(lines: seq<string>, heading: string)
    ensures var r := ChangelogLines(lines, heading); var e := EntryIndex(lines);
      e + 4 <= |r| && r[e..e + 4] == EntryLines(heading)
      && (if FirstStarting(lines, HeadingPrefix) == -1 then r[..e] == lines + [""] && |r| == |lines| + 5
          else r[..e] + r[e + 4..] == lines && |r| == |lines| + 4)
  {
    var r := ChangelogLines(lines, heading);
    var e := EntryIndex(lines);
    if FirstStarting(lines, HeadingPrefix) != -1 {
      assert r[..e] == lines[..e] && r[e + 4..] == lines[e..];
    }
  }

  /** Two bumps in a row leave the newer entry on top of the older one. */
  lemma ChangelogNewestFirst(lines: seq<string>, older: string, newer: string)
    requires StartsWith(older, HeadingPrefix)
    ensures var at := FirstStarting(lines, HeadingPrefix);
      ChangelogLines(ChangelogLines(lines, older), newer) ==
        if at == -1 then lines + [""] + EntryLines(newer) + EntryLines(older)
        else lines[..at] + EntryLines(newer) + EntryLines(older) + lines[at..]
  {
    ChangelogFirstHeading(lines, older);
    var r := ChangelogLines(lines, older);
    var e := EntryIndex(lines);
    SecondEntry(r, e, newer);
    if FirstStarting(lines, HeadingPrefix) == -1 {
      Halves(lines + [""], EntryLines(older));
    } else {
      EntryBetween(lines, e, older, newer);
    }
  }

  /** A second entry goes where the first heading of the updated changelog is. */
  lemma SecondEntry(r: seq<string>, e: nat, newer: string)
    requires e < |r| && FirstStarting(r, HeadingPrefix) == e
    ensures ChangelogLines(r, newer) == r[..e] + EntryLines(newer) + r[e..]
  {
  }

  /** Inserting the newer entry before the older one, both before line `e`. */
  lemma EntryBetween(lines: seq<string>, e: nat, older: string, newer: string)
    requires e <= |lines|
    ensures var r := lines[..e] + EntryLines(older) + lines[e..];
      r[..e] + EntryLines(newer) + r[e..] == lines[..e] + EntryLines(newer) + EntryLines(older) + lines[e..]
  {
    var r := lines[..e] + EntryLines(older) + lines[e..];
    assert r == lines[..e] + (EntryLines(older) + lines[e..]);
    Halves(lines[..e], EntryLines(older) + lines[e..]);
  }

  /** The two halves of a concatenation. */
  lemma Halves(a: seq<string>, b: seq<string>)
    ensures (a + b)[..|a|] == a && (a + b)[|a|..] == b
  {
  }

  // The prompt flow.

  /** What a run does: refuse the version, or write the documents that exist. */
  datatype Outcome = Rejected | Bumped(readme: Option<string>, changelog: Option<string>)

  /**
   * The prompt flow: an invalid version stops the run before anything is
   * written; otherwise the trimmed phrase (absent when empty) goes into the
   * changelog heading, and each document is rewritten only if it exists.
   */
  method Bump(version: string, phrase: string, readme: Option<string>, changelog: Option<string>)
    returns (outcome: Outcome)
    ensures !IsVersion(version) <==> outcome == Rejected
    ensures outcome.Bumped? ==>
      outcome.readme == (if readme.Some? then Some(ReadmeWritten(readme.value, version)) else None)
      && outcome.changelog == (if changelog.Some?
        then Some(ChangelogWritten(changelog.value, version, if Trim(phrase) != "" then Some(Trim(phrase)) else None))
        else None)
  {
    if !IsVersion(version) {
      return Rejected;
    }
    var trimmed := Trim(phrase);
    var newReadme: Option<string> := None;
    if readme.Some? {
      var written := UpdateReadme(readme.value, version);
      newReadme := Some(written);
    }
    var newChangelog: Option<string> := None;
    if changelog.Some? {
      var written := UpdateChangelog(changelog.value, version, if |trimmed| > 0 then Some(trimmed) else None);
      newChangelog := Some(written);
    }
    outcome := Bumped(newReadme, newChangelog);
  }
}

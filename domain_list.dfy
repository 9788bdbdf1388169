/**
 * The maintenance tool that regenerates the domain allow-list from a
 * community domain-list file: each line is normalised to a bare domain or
 * dropped, the video-site domains among them are kept, and the sorted,
 * duplicate-free result is written out together with the manifest's match
 * patterns (two per domain).
 */
module DomainList {
  import opened Wrappers
  import opened Text
  import opened StringOrder

  // Normalising one line.

  /** The line-level directives the tool skips. */
  predicate IsDirective(c: string) {
    StartsWith(c, "include:") || StartsWith(c, "regexp:") || StartsWith(c, "keyword:")
  }

  /** Cuts a trailing " #" comment at its first occurrence, then trims. */
  function StripComment(c: string): string {
    var i := IndexOf(c, " #");
    if i != -1 then Trim(c[..i]) else c
  }

  /** Keeps the text before the first space, trimmed, when there is a space. */
  function FirstWord(c: string): string {
    if Contains(c, " ") then Trim(Split(c, {' '})[0]) else c
  }

  /** The `full:`, `domain:` and `suffix:` prefixes, in that order, each removed with what follows trimmed. */
  function DropPrefixes(w: string): string {
    var p1 := if StartsWith(w, "full:") then Trim(w[5..]) else w;
    var p2 := if StartsWith(p1, "domain:") then Trim(p1[7..]) else p1;
    if StartsWith(p2, "suffix:") then Trim(p2[7..]) else p2
  }

  /** `replace(/^\./, '')` then `replace(/\.$/, '')`: one leading dot, then one trailing dot. */
  function StripDots(c: string): string {
    var a := if StartsWith(c, ".") then c[1..] else c;
    if EndsWith(a, ".") then a[..|a| - 1] else a
  }

  /**
   * The first half of `normalizeLine`: the trimmed line with any trailing
   * comment cut, or nothing for a blank line, a comment line or a directive.
   */
  function Cleaned(line: string): Option<string> {
    var c0 := Trim(line);
    if c0 == "" || StartsWith(c0, "#") then None
    else
      var c1 := StripComment(c0);
      if IsDirective(c1) then None else Some(c1)
  }

  /** The final checks: an empty result or one holding '/' or '*' is dropped. */
  function Checked(c: string): Option<string> {
    if c == "" || Contains(c, "/") || Contains(c, "*") then None else Some(c)
  }

  /** The second half of `normalizeLine`: first word, prefixes, lower case, dots, checks. */
  function Finished(c1: string): Option<string> {
    Checked(StripDots(Lower(DropPrefixes(FirstWord(c1)))))
  }

  /**
   * `normalizeLine`: the domain a line of the source file names, or nothing
   * for a blank line, a comment, a directive, or a result that is empty or
   * holds '/' or '*'.
   */
  function Normalized(line: string): Option<string> {
    match Cleaned(line)
    case None => None
    case Some(c1) => Finished(c1)
  }

  /** `normalizeLine` as written, in its three stretches of reassignments of `cleaned`. */
  method NormalizeLine(line: string) returns (r: Option<string>)
    ensures r == Normalized(line)
  {
    var cleaned := CleanLine(line);
    if cleaned.None? {
      return None;
    }
    var word := DropLinePrefixes(cleaned.value);
    var c := StripDots(Lower(word));
    if c == "" {
      return None;
    }
    if Contains(c, "/") {
      return None;
    }
    if Contains(c, "*") {
      return None;
    }
    return Some(c);
  }

  /** Trimming, blank and comment lines, the trailing comment, the directives. */
  method CleanLine(line: string) returns (r: Option<string>)
    ensures r == Cleaned(line)
  {
    var cleaned := Trim(line);
    if cleaned == "" || StartsWith(cleaned, "#") {
      return None;
    }
    var commentIndex := IndexOf(cleaned, " #");
    if commentIndex != -1 {
      cleaned := Trim(cleaned[..commentIndex]);
    }
    if StartsWith(cleaned, "include:") {
      return None;
    }
    if StartsWith(cleaned, "regexp:") {
      return None;
    }
    if StartsWith(cleaned, "keyword:") {
      return None;
    }
    return Some(cleaned);
  }

  /** The first word, then the `full:`, `domain:` and `suffix:` prefixes. */
  method DropLinePrefixes(c1: string) returns (cleaned: string)
    ensures cleaned == DropPrefixes(FirstWord(c1))
  {
    cleaned := c1;
    if Contains(cleaned, " ") {
      cleaned := Trim(Split(cleaned, {' '})[0]);
    }
    if StartsWith(cleaned, "full:") {
      cleaned := Trim(cleaned[5..]);
    }
    if StartsWith(cleaned, "domain:") {
      cleaned := Trim(cleaned[7..]);
    }
    if StartsWith(cleaned, "suffix:") {
      cleaned := Trim(cleaned[7..]);
    }
  }

  /** Every character is its own lower case. */
  predicate IsLowerCase(s: string) {
    forall c | c in s :: LowerChar(c) == c
  }

  /** What a normalised domain is made of: not empty, lower case, no space, '/' or '*'. */
  predicate IsBareDomain(s: string) {
    s != "" && IsLowerCase(s) && forall c | c in s :: c != ' ' && c != '/' && c != '*'
  }

  lemma StripDotsKeepsChars(c: string)
    ensures forall x | x in StripDots(c) :: x in c
  {
    var a := if StartsWith(c, ".") then c[1..] else c;
    assert forall x | x in a :: x in c;
  }

  lemma DropPrefixesKeepsChars(w: string)
    ensures forall x | x in DropPrefixes(w) :: x in w
  {
    var p1 := if StartsWith(w, "full:") then Trim(w[5..]) else w;
    var p2 := if StartsWith(p1, "domain:") then Trim(p1[7..]) else p1;
    if StartsWith(w, "full:") {
      TrimRestKeepsChars(w, 5);
    }
    if StartsWith(p1, "domain:") {
      TrimRestKeepsChars(p1, 7);
    }
    if StartsWith(p2, "suffix:") {
      TrimRestKeepsChars(p2, 7);
    }
  }

  /** Dropping a prefix and trimming only drops characters. */
  lemma TrimRestKeepsChars(w: string, n: nat)
    requires n <= |w|
    ensures forall x | x in Trim(w[n..]) :: x in w
  {
    TrimKeepsChars(w[n..]);
    assert forall x | x in w[n..] :: x in w;
  }

  /** After `FirstWord` no space is left. */
  lemma FirstWordHasNoSpace(c: string)
    ensures forall x | x in FirstWord(c) :: x != ' '
  {
    NotContainsChar(c, ' ');
    if Contains(c, " ") {
      TrimKeepsChars(Split(c, {' '})[0]);
    }
  }

  /** Lower-casing lets no space in and leaves every character lower case. */
  lemma LowerKeepsShape(c: string)
    ensures forall x | x in Lower(c) :: x != ' ' || ' ' in c
    ensures IsLowerCase(Lower(c))
  {
    LowerIdempotent(c);
    forall x | x in Lower(c) ensures LowerChar(x) == x {
      var i :| 0 <= i < |Lower(c)| && Lower(c)[i] == x;
      assert Lower(Lower(c))[i] == LowerChar(x);
    }
  }

  /** A normalised line is a bare domain: lower case and free of spaces, slashes and asterisks. */
  lemma NormalizedIsBare(line: string)
    requires Normalized(line).Some?
    ensures IsBareDomain(Normalized(line).value)
  {
    var c1 := Cleaned(line).value;
    var w := FirstWord(c1);
    var p3 := DropPrefixes(w);
    var c := StripDots(Lower(p3));
    FirstWordHasNoSpace(c1);
    DropPrefixesKeepsChars(w);
    LowerKeepsShape(p3);
    StripDotsKeepsChars(Lower(p3));
    NotContainsChar(c, '/');
    NotContainsChar(c, '*');
  }

  /** Blank lines and comment lines are dropped, whatever follows them. */
  lemma NormalizedRejects(line: string)
    ensures Trim(line) == "" ==> Normalized(line).None?
    ensures StartsWith(Trim(line), "#") ==> Normalized(line).None?
  {
  }

  /**
   * A trimmed line that starts with a word free of spaces keeps starting with
   * it once a comment is cut: the first " #" lies after the word.
   */
  lemma StripCommentKeepsPrefix(c0: string, p: string)
    requires StartsWith(c0, p) && p != []
    requires forall j | 0 <= j < |p| :: 'a' <= p[j] <= 'z' || p[j] == ':'
    ensures StartsWith(StripComment(c0), p)
  {
    assert !IsSpace(p[0]) && !IsSpace(p[|p| - 1]);
    var i := IndexOf(c0, " #");
    if i != -1 {
      forall j | 0 <= j < |p| ensures !OccursAt(c0, " #", j) {
        assert c0[j] == p[j];
      }
      assert StartsWith(c0[..i], p);
      TrimKeepsPrefix(c0[..i], p);
    }
  }

  /** A directive is dropped even with a comment after it. */
  lemma DirectiveRejected(line: string, directive: string)
    requires directive in {"include:", "regexp:", "keyword:"}
    requires StartsWith(Trim(line), directive)
    ensures Normalized(line).None?
  {
    var c0 := Trim(line);
    DirectiveShape(directive);
    StripCommentKeepsPrefix(c0, directive);
    DirectivePrefix(StripComment(c0), directive);
  }

  /** The directives are lower-case words ending in a colon. */
  lemma DirectiveShape(directive: string)
    requires directive in {"include:", "regexp:", "keyword:"}
    ensures directive != [] && forall j | 0 <= j < |directive| :: 'a' <= directive[j] <= 'z' || directive[j] == ':'
  {
  }

  /** Text that starts with a directive is a directive line. */
  lemma DirectivePrefix(c: string, directive: string)
    requires directive in {"include:", "regexp:", "keyword:"}
    requires StartsWith(c, directive)
    ensures IsDirective(c)
  {
  }

  /** The domains the generated list holds and re-reads: bare, no whitespace, no trailing dot, starting with 'y'. */
  predicate IsPlainDomain(d: string) {
    IsBareDomain(d) && d[0] == 'y' && !EndsWith(d, ".") && forall c | c in d :: !IsSpace(c)
  }

  lemma NoSpaceNoComment(s: string)
    requires forall c | c in s :: c != ' '
    ensures IndexOf(s, " #") == -1 && !Contains(s, " ")
  {
    NotContainsChar(s, ' ');
    forall i | 0 <= i <= |s| ensures !OccursAt(s, " #", i) {
      if i < |s| {
        assert s[i] in s;
      }
    }
  }

  /** A word without whitespace that is no comment and no directive passes the first half unchanged. */
  lemma CleanedWord(w: string)
    requires w != [] && w[0] !in {'#', 'i', 'r', 'k'}
    requires forall c | c in w :: !IsSpace(c)
    ensures Cleaned(w) == Some(w)
  {
    TrimOfTrimmed(w);
    NoSpaceNoComment(w);
    NoDirective(w);
    StartsDiffer(w, "#");
    assert StripComment(w) == w;
  }

  /** Text whose first character is none of `i`, `r`, `k` starts no directive. */
  lemma NoDirective(c: string)
    requires c != [] && c[0] !in {'i', 'r', 'k'}
    ensures !IsDirective(c)
  {
    StartsDiffer(c, "include:");
    StartsDiffer(c, "regexp:");
    StartsDiffer(c, "keyword:");
  }

  /** Such a word followed by a " #" comment loses the comment and keeps the rest. */
  lemma CleanedCommented(w: string, comment: string)
    requires w != [] && w[0] !in {'#', 'i', 'r', 'k'}
    requires forall c | c in w :: !IsSpace(c)
    ensures Cleaned(w + " #" + comment) == Some(w)
  {
    var line := w + " #" + comment;
    assert StartsWith(line, w + " #");
    TrimKeepsPrefix(line, w + " #");
    var c0 := Trim(line);
    assert OccursAt(c0, " #", |w|);
    forall i | 0 <= i < |w| ensures !OccursAt(c0, " #", i) {
      assert c0[i] == w[i] && w[i] in w;
    }
    assert IndexOf(c0, " #") == |w|;
    assert c0[..|w|] == w;
    TrimOfTrimmed(w);
    CleanedWord(w);
  }

  /** A string whose first character differs from that of `p` does not start with `p`. */
  lemma StartsDiffer(s: string, p: string)
    requires s != [] && p != [] && s[0] != p[0]
    ensures !StartsWith(s, p)
  {
    if |p| <= |s| {
      assert s[..|p|][0] == s[0];
    }
  }

  /** `p + d` starts with `p`, and what follows it is `d`. */
  lemma AfterPrefix(p: string, d: string)
    ensures StartsWith(p + d, p) && (p + d)[|p|..] == d
  {
    assert (p + d)[..|p|] == p;
  }

  /** After one of the three prefixes (or none), a whitespace-free word starting with 'y' is what is left. */
  lemma DropPrefixesOfWord(prefix: string, d: string)
    requires prefix in {"", "full:", "domain:", "suffix:"}
    requires d != [] && d[0] == 'y'
    requires forall c | c in d :: !IsSpace(c)
    ensures DropPrefixes(prefix + d) == d
  {
    TrimOfTrimmed(d);
    StartsDiffer(d, "full:");
    StartsDiffer(d, "domain:");
    StartsDiffer(d, "suffix:");
    AfterPrefix(prefix, d);
    if prefix == "" {
      assert prefix + d == d;
    } else if prefix == "full:" {
      assert DropPrefixes(prefix + d) == d;
    } else if prefix == "domain:" {
      StartsDiffer(prefix + d, "full:");
    } else {
      StartsDiffer(prefix + d, "full:");
      StartsDiffer(prefix + d, "domain:");
    }
  }

  /** A prefix (or none) before a whitespace-free 'y' word gives a whitespace-free word that is no comment or directive. */
  lemma PrefixedWord(prefix: string, d: string)
    requires prefix in {"", "full:", "domain:", "suffix:"}
    requires d != [] && d[0] == 'y'
    requires forall c | c in d :: !IsSpace(c)
    ensures prefix + d != [] && (prefix + d)[0] !in {'#', 'i', 'r', 'k'}
    ensures forall c | c in prefix + d :: !IsSpace(c)
  {
    assert forall c | c in prefix + d :: c in prefix || c in d;
    assert (prefix + d)[0] == if prefix == "" then 'y' else prefix[0];
  }

  /** A word with a prefix (or none) before a whitespace-free 'y' word reaches the final checks as that word. */
  lemma NormalizedWord(prefix: string, d: string)
    requires prefix in {"", "full:", "domain:", "suffix:"}
    requires d != [] && d[0] == 'y'
    requires forall c | c in d :: !IsSpace(c)
    ensures Cleaned(prefix + d) == Some(prefix + d)
    ensures Normalized(prefix + d) == Checked(StripDots(Lower(d)))
  {
    var line := prefix + d;
    PrefixedWord(prefix, d);
    CleanedWord(line);
    FirstWordOfWord(line);
    DropPrefixesOfWord(prefix, d);
  }

  /** A word without a space is its own first word. */
  lemma FirstWordOfWord(w: string)
    requires forall c | c in w :: c != ' '
    ensures FirstWord(w) == w
  {
    NotContainsChar(w, ' ');
  }

  /** A plain domain is already lower case and has no dot at either end to strip. */
  lemma PlainFinishes(d: string)
    requires IsPlainDomain(d)
    ensures Checked(StripDots(Lower(d))) == Some(d)
  {
    forall i | 0 <= i < |d| ensures Lower(d)[i] == d[i] {
      assert d[i] in d;
    }
    assert Lower(d) == d;
    assert d[..1] == ['y'];
    assert StripDots(d) == d;
    NotContainsChar(d, '/');
    NotContainsChar(d, '*');
  }

  /** A plain domain, bare or after one of the three prefixes, normalises to itself. */
  lemma NormalizedPlain(prefix: string, d: string)
    requires prefix in {"", "full:", "domain:", "suffix:"}
    requires IsPlainDomain(d)
    ensures Normalized(prefix + d) == Some(d)
  {
    NormalizedWord(prefix, d);
    PlainFinishes(d);
  }

  /**
   * A plain domain followed by a " #" comment still normalises to itself:
   * the comment is cut at its first " #".
   */
  lemma NormalizedCommented(prefix: string, d: string, comment: string)
    requires prefix in {"", "full:", "domain:", "suffix:"}
    requires IsPlainDomain(d)
    ensures Normalized(prefix + d + " #" + comment) == Some(d)
  {
    var word := prefix + d;
    PrefixedWord(prefix, d);
    CleanedCommented(word, comment);
    NormalizedWord(prefix, d);
    PlainFinishes(d);
    assert Normalized(word + " #" + comment) == Finished(word);
  }

  // Filtering.

  /** The suffixes of Google-owned hosts that are never kept. */
  const BlockedSuffixes: seq<string> := [".google.com", ".googleapis.com", ".googleusercontent.com"]

  /** The hosts that are never kept. */
  const BlockedExact: set<string> := {
    "ggpht.com", "ggpht.cn", "googlevideo.com", "ytimg.com", "yt3.googleusercontent.com",
    "wide-youtube.l.google.com", "youtube-ui.l.google.com", "youtubeembeddedplayer.googleapis.com",
    "youtubei.googleapis.com"}

  predicate HasBlockedSuffix(domain: string) {
    exists k | 0 <= k < |BlockedSuffixes| :: EndsWith(domain, BlockedSuffixes[k])
  }

  /** `isAllowedDomain`: the two short domains, or a dotted "youtube…" domain that is not blocked. */
  predicate IsAllowedDomain(domain: string) {
    if domain == "youtu.be" || domain == "yt.be" then true
    else if !StartsWith(domain, "youtube") then false
    else if HasBlockedSuffix(domain) then false
    else if domain in BlockedExact then false
    else Contains(domain, ".")
  }

  /** Each host of the exact set either does not start with "youtube" or has a blocked suffix. */
  lemma ExactEntryCovered(domain: string)
    requires domain in BlockedExact
    ensures !StartsWith(domain, "youtube") || HasBlockedSuffix(domain)
  {
    if domain == "youtube-ui.l.google.com" {
      SuffixCovers(domain, 0);
    } else if domain == "youtubeembeddedplayer.googleapis.com" {
      SuffixCovers(domain, 1);
    } else if domain == "youtubei.googleapis.com" {
      SuffixCovers(domain, 1);
    } else if domain == "ytimg.com" || domain == "yt3.googleusercontent.com" {
      SecondDiffers(domain);
    } else {
      StartsDiffer(domain, "youtube");
    }
  }

  /** A host ending in the blocked suffix `k` has a blocked suffix. */
  lemma SuffixCovers(domain: string, k: nat)
    requires k < |BlockedSuffixes| && EndsWith(domain, BlockedSuffixes[k])
    ensures HasBlockedSuffix(domain)
  {
  }

  /** A host whose second character is not 'o' does not start with "youtube". */
  lemma SecondDiffers(domain: string)
    requires |domain| > 1 && domain[1] != 'o'
    ensures !StartsWith(domain, "youtube")
  {
    if |domain| >= 7 {
      assert domain[..7][1] == domain[1];
    }
  }

  /**
   * The exact set never decides anything: each of its hosts either does not
   * start with "youtube" or has a blocked suffix, so the filter is the two
   * short domains plus the dotted "youtube…" domains without those suffixes.
   */
  lemma BlockedExactRedundant(domain: string)
    ensures IsAllowedDomain(domain) <==>
      domain == "youtu.be" || domain == "yt.be"
      || (StartsWith(domain, "youtube") && !HasBlockedSuffix(domain) && Contains(domain, "."))
  {
    if domain in BlockedExact {
      ExactEntryCovered(domain);
    }
  }

  /** A kept domain starts with 'y'. */
  lemma AllowedStartsWithY(domain: string)
    requires IsAllowedDomain(domain)
    ensures domain != "" && domain[0] == 'y'
  {
    if domain != "youtu.be" && domain != "yt.be" {
      assert domain[..7] == "youtube";
    }
  }

  // The list.

  /** What a line contributes to the list: its normalised domain, when the filter keeps it. */
  function Kept(line: string): Option<string> {
    match Normalized(line)
    case Some(d) => if IsAllowedDomain(d) then Some(d) else None
    case None => None
  }

  /** The contribution of every line, in order. */
  function Candidates(lines: seq<string>): (r: seq<Option<string>>)
    ensures |r| == |lines| && forall k | 0 <= k < |lines| :: r[k] == Kept(lines[k])
  {
    seq(|lines|, k requires 0 <= k < |lines| => Kept(lines[k]))
  }

  /** Adds each present candidate, in order, to a `Set`, then sorts: a sorted list without repeats. */
  function Collect(cands: seq<Option<string>>): (r: seq<string>)
    ensures StrictlySorted(r)
    decreases |cands|
  {
    if cands == [] then []
    else
      var rest := Collect(cands[..|cands| - 1]);
      match cands[|cands| - 1]
      case Some(d) => Insert(rest, d)
      case None => rest
  }

  /** The collected list holds exactly the present candidates. */
  lemma {:induction false} CollectSpec(cands: seq<Option<string>>)
    ensures forall d :: d in Collect(cands) <==> Some(d) in cands
    decreases |cands|
  {
    if cands != [] {
      var prefix := cands[..|cands| - 1];
      CollectSpec(prefix);
      assert cands == prefix + [cands[|cands| - 1]];
    }
  }

  /** Any sorted list without repeats that holds exactly the present candidates is the collected list. */
  lemma CollectSorted(cands: seq<Option<string>>, ds: seq<string>)
    requires StrictlySorted(ds)
    requires forall d :: Some(d) in cands <==> d in ds
    ensures Collect(cands) == ds
  {
    CollectSpec(cands);
    SortedUnique(Collect(cands), ds);
  }

  /** `loadDomains` over the lines of a file: add each kept domain to a set, then sort. */
  function LoadedFrom(lines: seq<string>): (r: seq<string>)
    ensures StrictlySorted(r)
  {
    Collect(Candidates(lines))
  }

  /** The list of a file: one entry per domain some line yields, and nothing else. */
  lemma LoadedFromSpec(lines: seq<string>)
    ensures forall d :: d in LoadedFrom(lines) <==>
      exists k | 0 <= k < |lines| :: Normalized(lines[k]) == Some(d) && IsAllowedDomain(d)
  {
    CollectSpec(Candidates(lines));
    forall d ensures Some(d) in Candidates(lines) <==>
      exists k | 0 <= k < |lines| :: Normalized(lines[k]) == Some(d) && IsAllowedDomain(d)
    {
      CandidateOf(lines, d);
    }
  }

  /** A domain is a candidate exactly when some line normalises to it and the filter keeps it. */
  lemma CandidateOf(lines: seq<string>, d: string)
    ensures Some(d) in Candidates(lines) <==>
      exists k | 0 <= k < |lines| :: Normalized(lines[k]) == Some(d) && IsAllowedDomain(d)
  {
    var cands := Candidates(lines);
    if Some(d) in cands {
      var k :| 0 <= k < |cands| && cands[k] == Some(d);
      assert Kept(lines[k]) == Some(d);
    }
    if exists k | 0 <= k < |lines| :: Normalized(lines[k]) == Some(d) && IsAllowedDomain(d) {
      var k :| 0 <= k < |lines| && Normalized(lines[k]) == Some(d) && IsAllowedDomain(d);
      assert cands[k] == Some(d);
    }
  }

  /** Every listed domain is kept by the filter and is a bare domain. */
  lemma LoadedFromShape(lines: seq<string>)
    ensures forall d | d in LoadedFrom(lines) :: IsAllowedDomain(d) && IsBareDomain(d)
  {
    LoadedFromSpec(lines);
    forall d | d in LoadedFrom(lines) ensures IsAllowedDomain(d) && IsBareDomain(d) {
      var k :| 0 <= k < |lines| && Normalized(lines[k]) == Some(d) && IsAllowedDomain(d);
      NormalizedIsBare(lines[k]);
    }
  }

  /** `loadDomains`: the file split at newlines, each line normalised and filtered, the survivors deduplicated and sorted. */
  method LoadDomains(rawText: string) returns (domains: seq<string>)
    ensures domains == LoadedFrom(Split(rawText, {'\n'}))
    ensures StrictlySorted(domains)
  {
    var lines := Split(rawText, {'\n'});
    ghost var cands := Candidates(lines);
    domains := [];
    var i := 0;
    while i < |lines|
      invariant 0 <= i <= |lines|
      invariant domains == Collect(cands[..i])
    {
      CollectStep(cands, i);
      assert cands[i] == Kept(lines[i]);
      var normalized := NormalizeLine(lines[i]);
      if normalized.Some? && IsAllowedDomain(normalized.value) {
        domains := Insert(domains, normalized.value);
      }
      i := i + 1;
    }
    assert cands[..i] == cands;
  }

  /** Collecting one more candidate adds it when it is present. */
  lemma CollectStep(cands: seq<Option<string>>, i: nat)
    requires i < |cands|
    ensures Collect(cands[..i + 1]) ==
      if cands[i].Some? then Insert(Collect(cands[..i]), cands[i].value) else Collect(cands[..i])
  {
    assert cands[..i + 1][..i] == cands[..i];
  }

  /** Candidates that are the entries of a list, then one absent candidate, present exactly that list's entries. */
  lemma EntriesThenNone(cands: seq<Option<string>>, ds: seq<string>)
    requires |cands| == |ds| + 1 && cands[|ds|] == None
    requires forall k | 0 <= k < |ds| :: cands[k] == Some(ds[k])
    ensures forall d :: Some(d) in cands <==> d in ds
  {
    forall d ensures Some(d) in cands <==> d in ds {
      if Some(d) in cands {
        var k :| 0 <= k < |cands| && cands[k] == Some(d);
        assert k < |ds| && ds[k] == d;
      }
      if d in ds {
        var k :| 0 <= k < |ds| && ds[k] == d;
        assert cands[k] == Some(d);
      }
    }
  }

  /** Candidates that are the entries of a sorted list, then one absent candidate, collect to that list. */
  lemma CollectThenNone(cands: seq<Option<string>>, ds: seq<string>)
    requires StrictlySorted(ds) && |cands| == |ds| + 1 && cands[|ds|] == None
    requires forall k | 0 <= k < |ds| :: cands[k] == Some(ds[k])
    ensures Collect(cands) == ds
  {
    EntriesThenNone(cands, ds);
    CollectSorted(cands, ds);
  }

  /** A list the tool can have written: sorted, without repeats, every entry plain and kept by the filter. */
  predicate IsPlainList(ds: seq<string>) {
    StrictlySorted(ds) && forall k | 0 <= k < |ds| :: IsPlainDomain(ds[k]) && IsAllowedDomain(ds[k])
  }

  /** A plain domain kept by the filter, on a line of its own, is what that line contributes. */
  lemma PlainKept(d: string)
    requires IsPlainDomain(d) && IsAllowedDomain(d)
    ensures Kept(d) == Some(d)
  {
    NormalizedPlain("", d);
    assert "" + d == d;
  }

  /** Plain, kept domains in order, followed by one blank line, load as themselves. */
  lemma LoadedFromPlain(ds: seq<string>)
    requires IsPlainList(ds)
    ensures LoadedFrom(ds + [""]) == ds
  {
    var lines := ds + [""];
    var cands := Candidates(lines);
    forall k | 0 <= k < |ds| ensures cands[k] == Some(ds[k]) {
      PlainKept(ds[k]);
      assert lines[k] == ds[k];
    }
    assert cands[|ds|] == None by {
      TrimOfTrimmed("");
      assert lines[|ds|] == "";
    }
    CollectThenNone(cands, ds);
  }

  /** Lines without whitespace, joined by newlines with a final newline, split back into those lines and one empty line. */
  lemma ListFileLines(ds: seq<string>)
    requires |ds| > 0
    requires forall k | 0 <= k < |ds| :: forall c | c in ds[k] :: !IsSpace(c)
    ensures Split(Join(ds, '\n') + "\n", {'\n'}) == ds + [""]
  {
    assert IsSpace('\n');
    var lines := ds + [""];
    JoinSnocEmpty(ds, '\n');
    forall k | 0 <= k < |lines| ensures forall c | c in lines[k] :: c !in {'\n'} {
      if k < |ds| {
        assert lines[k] == ds[k];
      }
    }
    SplitJoin(lines, '\n', {'\n'});
  }

  /**
   * The list file the tool writes (the domains joined by newlines, plus a
   * final newline) reads back as the same list, as long as its domains are
   * plain: a later run from that file alone regenerates it unchanged.
   */
  lemma ListFileRoundTrip(ds: seq<string>)
    requires IsPlainList(ds) && |ds| > 0
    ensures LoadedFrom(Split(Join(ds, '\n') + "\n", {'\n'})) == ds
  {
    assert LoadedFrom(ds + [""]) == ds by {
      LoadedFromPlain(ds);
    }
    assert Split(Join(ds, '\n') + "\n", {'\n'}) == ds + [""] by {
      assert forall k | 0 <= k < |ds| :: forall c | c in ds[k] :: !IsSpace(c);
      ListFileLines(ds);
    }
  }

  /** Lower-case letters, digits, dots and hyphens: the characters of a host name. */
  predicate IsHostText(d: string) {
    forall c | c in d :: 'a' <= c <= 'z' || '0' <= c <= '9' || c == '.' || c == '-'
  }

  /** A host name followed by a dot is still host text. */
  lemma HostTextDotted(d: string)
    requires IsHostText(d)
    ensures IsHostText(d + ".") && forall c | c in d + "." :: !IsSpace(c)
  {
    assert forall c | c in d + "." :: c in d || c == '.';
  }

  /** The final steps strip the one trailing dot of a host name followed by a dot. */
  lemma DottedFinishes(d: string)
    requires d != [] && d[0] == 'y' && IsHostText(d)
    ensures Checked(StripDots(Lower(d + "."))) == Some(d)
  {
    var w := d + ".";
    HostTextDotted(d);
    forall i | 0 <= i < |w| ensures Lower(w)[i] == w[i] {
      assert w[i] in w;
    }
    assert Lower(w) == w;
    StartsDiffer(w, ".");
    assert w[..|w| - 1] == d;
    NotContainsChar(d, '/');
    NotContainsChar(d, '*');
  }

  /** A 'y' host name followed by one dot normalises to the host name, dot removed. */
  lemma NormalizedDotted(d: string)
    requires d != [] && d[0] == 'y' && IsHostText(d)
    ensures Normalized(d + ".") == Some(d)
  {
    HostTextDotted(d);
    NormalizedWord("", d + ".");
    assert "" + (d + ".") == d + ".";
    DottedFinishes(d);
  }

  /** A "youtube…" host name followed by a dot is still kept: the dot hides every blocked ending. */
  lemma DottedAllowed(d: string)
    requires StartsWith(d, "youtube")
    ensures IsAllowedDomain(d + ".")
  {
    var w := d + ".";
    assert w[..7] == d[..7];
    assert OccursAt(w, ".", |d|);
    assert w[|w| - 1] == '.';
    forall k | 0 <= k < |BlockedSuffixes| ensures !EndsWith(w, BlockedSuffixes[k]) {
      var b := BlockedSuffixes[k];
      assert b[|b| - 1] == 'm';
      if |b| <= |w| {
        assert w[|w| - |b|..][|b| - 1] == '.';
      }
    }
    assert forall e | e in BlockedExact :: e != [] && e[|e| - 1] != '.';
  }

  /**
   * A host name with two trailing dots loses only one, and what is left
   * loses the other when read again: a list entry made from such a line
   * re-reads as a different domain, so the list file is then not a fixed
   * point of the tool. A "youtube…" name stays kept with its dot.
   */
  lemma DoubleDotNotStable(d: string)
    requires d != [] && d[0] == 'y' && IsHostText(d)
    ensures Normalized(d + "." + ".") == Some(d + ".")
    ensures Normalized(d + ".") == Some(d)
    ensures StartsWith(d, "youtube") ==> IsAllowedDomain(d + ".")
  {
    HostTextDotted(d);
    NormalizedDotted(d + ".");
    NormalizedDotted(d);
    if StartsWith(d, "youtube") {
      DottedAllowed(d);
    }
  }

  // The manifest patterns.

  /** The two match patterns of a domain: the domain itself and any subdomain, over HTTPS. */
  function PatternsOf(domain: string): seq<string> {
    ["https://" + domain + "/*", "https://*." + domain + "/*"]
  }

  /** `buildMatchPatterns`: both patterns of every domain, deduplicated and sorted. */
  function PatternsFrom(domains: seq<string>): (r: seq<string>)
    ensures StrictlySorted(r)
    decreases |domains|
  {
    if domains == [] then []
    else
      var p := PatternsOf(domains[|domains| - 1]);
      Insert(Insert(PatternsFrom(domains[..|domains| - 1]), p[0]), p[1])
  }

  /** The patterns are exactly the two of each domain. */
  lemma {:induction false} PatternsFromSpec(domains: seq<string>)
    ensures forall p :: p in PatternsFrom(domains) <==> exists k | 0 <= k < |domains| :: p in PatternsOf(domains[k])
    decreases |domains|
  {
    if domains != [] {
      var prefix := domains[..|domains| - 1];
      PatternsFromSpec(prefix);
      PatternsStep(domains);
      forall p ensures p in PatternsFrom(domains) <==> exists k | 0 <= k < |domains| :: p in PatternsOf(domains[k]) {
        if p in PatternsFrom(prefix) {
          var k :| 0 <= k < |prefix| && p in PatternsOf(prefix[k]);
          assert domains[k] == prefix[k];
        }
        if exists k | 0 <= k < |domains| :: p in PatternsOf(domains[k]) {
          var k :| 0 <= k < |domains| && p in PatternsOf(domains[k]);
          if k < |prefix| {
            assert prefix[k] == domains[k];
          }
        }
      }
    }
  }

  /** One more domain adds its two patterns and nothing else. */
  lemma PatternsStep(domains: seq<string>)
    requires domains != []
    ensures forall p :: p in PatternsFrom(domains) <==>
      p in PatternsFrom(domains[..|domains| - 1]) || p in PatternsOf(domains[|domains| - 1])
  {
    var q := PatternsOf(domains[|domains| - 1]);
    var once := Insert(PatternsFrom(domains[..|domains| - 1]), q[0]);
    assert PatternsFrom(domains) == Insert(once, q[1]);
    assert forall p :: p in q <==> p == q[0] || p == q[1];
  }

  /** `buildMatchPatterns` as written: add both patterns per domain to a set inside the loop, then sort. */
  method BuildMatchPatterns(domains: seq<string>) returns (patterns: seq<string>)
    ensures patterns == PatternsFrom(domains)
    ensures StrictlySorted(patterns)
  {
    patterns := [];
    var i := 0;
    while i < |domains|
      invariant 0 <= i <= |domains|
      invariant patterns == PatternsFrom(domains[..i])
    {
      assert domains[..i + 1][..i] == domains[..i];
      patterns := Insert(patterns, "https://" + domains[i] + "/*");
      patterns := Insert(patterns, "https://*." + domains[i] + "/*");
      i := i + 1;
    }
    assert domains[..i] == domains;
  }
}

/**
 * The JavaScript string operations the extension relies on, over `string`
 * (a sequence of characters): `trim`, `toLowerCase`, `startsWith`,
 * `endsWith`, `includes`, `indexOf`, `split` on single-character
 * separators, `filter(Boolean)` and `replace` of a first occurrence.
 */
module Text {

  /** The ECMAScript WhiteSpace and LineTerminator code points: what `trim` removes. */
  predicate IsSpace(c: char) {
    ('\t' <= c <= '\r') || c == ' ' || c == '\U{00A0}' || c == '\U{1680}' || ('\U{2000}' <= c <= '\U{200A}')
    || c == '\U{2028}' || c == '\U{2029}' || c == '\U{202F}' || c == '\U{205F}' || c == '\U{3000}' || c == '\U{FEFF}'
  }

  /** Drops the leading whitespace; what is left is a suffix of `s`. */
  function TrimStart(s: string): (r: string)
    ensures |r| <= |s|
    decreases |s|
  {
    if |s| > 0 && IsSpace(s[0]) then TrimStart(s[1..]) else s
  }

  /** Drops the trailing whitespace; what is left is a prefix of `s`. */
  function TrimEnd(s: string): (r: string)
    ensures |r| <= |s|
    decreases |s|
  {
    if |s| > 0 && IsSpace(s[|s| - 1]) then TrimEnd(s[..|s| - 1]) else s
  }

  /** What `TrimStart` keeps is a suffix of `s` that does not begin with whitespace. */
  lemma {:induction false} TrimStartSpec(s: string)
    ensures var r := TrimStart(s); r == s[|s| - |r|..] && (r == [] || !IsSpace(r[0]))
    decreases |s|
  {
    if |s| > 0 && IsSpace(s[0]) {
      TrimStartSpec(s[1..]);
      var r := TrimStart(s[1..]);
      assert s[1..][|s| - 1 - |r|..] == s[|s| - |r|..];
    }
  }

  /** What `TrimEnd` keeps is a prefix of `s` that does not end with whitespace. */
  lemma {:induction false} TrimEndSpec(s: string)
    ensures var r := TrimEnd(s); r == s[..|r|] && (r == [] || !IsSpace(r[|r| - 1]))
    decreases |s|
  {
    if |s| > 0 && IsSpace(s[|s| - 1]) {
      TrimEndSpec(s[..|s| - 1]);
      var r := TrimEnd(s[..|s| - 1]);
      assert s[..|s| - 1][..|r|] == s[..|r|];
    }
  }

  /** What `TrimStart` drops is whitespace. */
  lemma {:induction false} TrimStartDropsSpaces(s: string)
    ensures forall i | 0 <= i < |s| - |TrimStart(s)| :: IsSpace(s[i])
    decreases |s|
  {
    if |s| > 0 && IsSpace(s[0]) {
      TrimStartDropsSpaces(s[1..]);
    }
  }

  /** What `TrimEnd` drops is whitespace. */
  lemma {:induction false} TrimEndDropsSpaces(s: string)
    ensures forall i | |TrimEnd(s)| <= i < |s| :: IsSpace(s[i])
    decreases |s|
  {
    if |s| > 0 && IsSpace(s[|s| - 1]) {
      TrimEndDropsSpaces(s[..|s| - 1]);
    }
  }

  /** `String.prototype.trim`. */
  function Trim(s: string): (r: string)
    ensures |r| <= |s|
  {
    TrimEnd(TrimStart(s))
  }

  /** What `trim` keeps is a piece of `s` that neither begins nor ends with whitespace. */
  lemma TrimSpec(s: string)
    ensures var r := Trim(s); var t := TrimStart(s);
      r == t[..|r|] && t == s[|s| - |t|..] && (r == [] || (!IsSpace(r[0]) && !IsSpace(r[|r| - 1])))
  {
    var t := TrimStart(s);
    TrimStartSpec(s);
    TrimEndSpec(t);
    var r := TrimEnd(t);
    if r != [] {
      assert r[0] == t[0];
    }
  }

  /** Trimming only drops characters. */
  lemma TrimKeepsChars(s: string)
    ensures forall c | c in Trim(s) :: c in s
  {
    TrimSpec(s);
    var t := TrimStart(s);
    assert forall c | c in Trim(s) :: c in t;
    assert forall c | c in t :: c in s;
  }

  /** A string without whitespace at either end is its own trim. */
  lemma TrimOfTrimmed(s: string)
    requires s == [] || (!IsSpace(s[0]) && !IsSpace(s[|s| - 1]))
    ensures Trim(s) == s
  {
    assert TrimStart(s) == s;
    assert TrimEnd(s) == s;
  }

  lemma TrimIdempotent(s: string)
    ensures Trim(Trim(s)) == Trim(s)
  {
    TrimSpec(s);
    TrimOfTrimmed(Trim(s));
  }

  /** `trim` yields the empty string exactly when every character is whitespace. */
  lemma TrimEmptyIff(s: string)
    ensures Trim(s) == [] <==> forall i | 0 <= i < |s| :: IsSpace(s[i])
  {
    TrimStartDropsSpaces(s);
    TrimEndDropsSpaces(TrimStart(s));
    TrimSpec(s);
    var t := TrimStart(s);
    if t != [] {
      assert t[0] == s[|s| - |t|];
    }
  }

  /** Trimming keeps a prefix that begins and ends with a non-space character. */
  lemma TrimKeepsPrefix(s: string, prefix: string)
    requires StartsWith(s, prefix) && prefix != []
    requires !IsSpace(prefix[0]) && !IsSpace(prefix[|prefix| - 1])
    ensures StartsWith(Trim(s), prefix)
  {
    assert TrimStart(s) == s;
    TrimEndDropsSpaces(s);
    TrimEndSpec(s);
    assert s[|prefix| - 1] == prefix[|prefix| - 1];
  }

  /** A string without occurrences of a one-character string does not hold that character. */
  lemma NotContainsChar(s: string, c: char)
    ensures !Contains(s, [c]) <==> forall x | x in s :: x != c
  {
    if Contains(s, [c]) {
      var i :| 0 <= i <= |s| && OccursAt(s, [c], i);
      assert s[i] == c && s[i] in s;
    } else {
      forall i | 0 <= i < |s| ensures s[i] != c {
        assert !OccursAt(s, [c], i);
        assert s[i..i + 1] == [s[i]];
      }
    }
  }

  /** ASCII case folding: `toLowerCase` on the letters A to Z. */
  function LowerChar(c: char): char {
    if 'A' <= c <= 'Z' then (c as int + 32) as char else c
  }

  function Lower(s: string): string {
    seq(|s|, i requires 0 <= i < |s| => LowerChar(s[i]))
  }

  lemma LowerIdempotent(s: string)
    ensures Lower(Lower(s)) == Lower(s)
  {
  }

  lemma LowerConcat(a: string, b: string)
    ensures Lower(a + b) == Lower(a) + Lower(b)
  {
  }

  predicate StartsWith(s: string, prefix: string) {
    |prefix| <= |s| && s[..|prefix|] == prefix
  }

  predicate EndsWith(s: string, suffix: string) {
    |suffix| <= |s| && s[|s| - |suffix|..] == suffix
  }

  /** `sub` occurs in `s` starting at index `i`. */
  predicate OccursAt(s: string, sub: string, i: int) {
    0 <= i && i + |sub| <= |s| && s[i..i + |sub|] == sub
  }

  /** `String.prototype.includes`. */
  predicate Contains(s: string, sub: string) {
    exists i | 0 <= i <= |s| :: OccursAt(s, sub, i)
  }

  function IndexOfFrom(s: string, sub: string, from: nat): (r: int)
    ensures r == -1 || (from <= r && OccursAt(s, sub, r))
    ensures r == -1 ==> forall i | from <= i <= |s| :: !OccursAt(s, sub, i)
    ensures r != -1 ==> forall i | from <= i < r :: !OccursAt(s, sub, i)
    decreases |s| - from
  {
    if from > |s| then -1
    else if OccursAt(s, sub, from) then from
    else IndexOfFrom(s, sub, from + 1)
  }

  /** `String.prototype.indexOf`: the first occurrence, or -1 when there is none. */
  function IndexOf(s: string, sub: string): (r: int)
    ensures r == -1 <==> !Contains(s, sub)
    ensures r != -1 ==> OccursAt(s, sub, r) && forall i | 0 <= i < r :: !OccursAt(s, sub, i)
  {
    IndexOfFrom(s, sub, 0)
  }

  /** A substring of `s` (here: a suffix) occurs in `s`. */
  lemma ContainsSuffix(s: string, sub: string)
    requires EndsWith(s, sub)
    ensures Contains(s, sub)
  {
    assert OccursAt(s, sub, |s| - |sub|);
  }

  /** Lower-casing keeps an occurrence. */
  lemma LowerOccursAt(s: string, sub: string, i: int)
    requires OccursAt(s, sub, i)
    ensures OccursAt(Lower(s), Lower(sub), i)
  {
    assert Lower(s)[i..i + |sub|] == Lower(sub);
  }

  /** `String.prototype.replace` with a string pattern: only the first occurrence. */
  function ReplaceFirst(s: string, pattern: string, replacement: string): (r: string)
    ensures !Contains(s, pattern) ==> r == s
  {
    var i := IndexOf(s, pattern);
    if i < 0 then s else s[..i] + replacement + s[i + |pattern|..]
  }

  /**
   * `String.prototype.split` with a separator that matches single characters
   * (a one-character string or a character class such as /[,\n]/): there is
   * always one more piece than separators, and pieces may be empty.
   */
  function Split(s: string, seps: set<char>): (r: seq<string>)
    ensures |r| >= 1
    ensures forall k | 0 <= k < |r| :: forall c | c in r[k] :: c !in seps
    decreases |s|
  {
    if s == [] then [""]
    else
      var rest := Split(s[1..], seps);
      if s[0] in seps then [""] + rest else [[s[0]] + rest[0]] + rest[1..]
  }

  /** The first piece is the prefix of `s` before its first separator. */
  lemma {:induction false} SplitFirstPiece(s: string, seps: set<char>)
    ensures StartsWith(s, Split(s, seps)[0])
    ensures |Split(s, seps)| > 1 ==> |Split(s, seps)[0]| < |s| && s[|Split(s, seps)[0]|] in seps
    ensures |Split(s, seps)| == 1 ==> Split(s, seps)[0] == s
    decreases |s|
  {
    if s != [] {
      SplitFirstPiece(s[1..], seps);
    }
  }

  /** Cutting at a smaller class of separators first does not change the first piece. */
  lemma {:induction false} SplitFirstPieceNarrower(s: string, seps: set<char>, wider: set<char>)
    requires seps <= wider
    ensures Split(Split(s, seps)[0], wider)[0] == Split(s, wider)[0]
    decreases |s|
  {
    if s != [] {
      SplitFirstPieceNarrower(s[1..], seps, wider);
      if s[0] !in seps {
        assert Split(s, seps)[0] == [s[0]] + Split(s[1..], seps)[0];
        assert ([s[0]] + Split(s[1..], seps)[0])[1..] == Split(s[1..], seps)[0];
      }
    }
  }

  /** A string with no separator in it is one piece. */
  lemma {:induction false} SplitNoSeparator(s: string, seps: set<char>)
    requires forall c | c in s :: c !in seps
    ensures Split(s, seps) == [s]
    decreases |s|
  {
    if s != [] {
      SplitNoSeparator(s[1..], seps);
      assert [s[0]] + s[1..] == s;
    }
  }

  /** Splitting at the first separator. */
  lemma {:induction false} SplitAtSeparator(a: string, c: char, b: string, seps: set<char>)
    requires forall x | x in a :: x !in seps
    requires c in seps
    ensures Split(a + [c] + b, seps) == [a] + Split(b, seps)
    decreases |a|
  {
    if a == [] {
      assert a + [c] + b == [c] + b;
      assert ([c] + b)[1..] == b;
    } else {
      SplitAtSeparator(a[1..], c, b, seps);
      assert (a + [c] + b)[1..] == a[1..] + [c] + b;
      assert [a[0]] + a[1..] == a;
    }
  }

  /** Joining pieces free of separators at one of them and splitting again gives the pieces back. */
  lemma {:induction false} SplitJoin(pieces: seq<string>, sep: char, seps: set<char>)
    requires |pieces| >= 1 && sep in seps
    requires forall k | 0 <= k < |pieces| :: forall c | c in pieces[k] :: c !in seps
    ensures Split(Join(pieces, sep), seps) == pieces
    decreases |pieces|
  {
    if |pieces| == 1 {
      SplitNoSeparator(pieces[0], seps);
    } else {
      SplitJoin(pieces[1..], sep, seps);
      SplitAtSeparator(pieces[0], sep, Join(pieces[1..], sep), seps);
      assert [pieces[0]] + pieces[1..] == pieces;
    }
  }

  /** Splitting at one separator and joining with it again gives the string back. */
  lemma {:induction false} JoinSplit(s: string, sep: char)
    ensures Join(Split(s, {sep}), sep) == s
    decreases |s|
  {
    if s != [] {
      var rest := Split(s[1..], {sep});
      JoinSplit(s[1..], sep);
      if s[0] == sep {
        assert ([""] + rest)[1..] == rest;
        assert [sep] + s[1..] == s;
      } else if |rest| == 1 {
        assert [s[0]] + s[1..] == s;
      } else {
        var pieces := [[s[0]] + rest[0]] + rest[1..];
        assert pieces[1..] == rest[1..];
        assert Join(rest, sep) == rest[0] + [sep] + Join(rest[1..], sep);
        assert [s[0]] + s[1..] == s;
      }
    }
  }

  /** A separator after the last piece joins one more, empty, piece. */
  lemma {:induction false} JoinSnocEmpty(pieces: seq<string>, sep: char)
    requires |pieces| >= 1
    ensures Join(pieces + [""], sep) == Join(pieces, sep) + [sep]
    decreases |pieces|
  {
    if |pieces| == 1 {
      assert (pieces + [""])[1..] == [""];
    } else {
      JoinSnocEmpty(pieces[1..], sep);
      assert (pieces + [""])[1..] == pieces[1..] + [""];
    }
  }

  /** `pieces.join(sep)` for a one-character separator. */
  function Join(pieces: seq<string>, sep: char): string
    decreases |pieces|
  {
    if |pieces| == 0 then ""
    else if |pieces| == 1 then pieces[0]
    else pieces[0] + [sep] + Join(pieces[1..], sep)
  }

  /** `xs.filter(Boolean)` on strings: drops the empty ones, keeping order. */
  function NonEmpty(xs: seq<string>): (r: seq<string>)
    ensures |r| <= |xs|
    ensures forall k | 0 <= k < |r| :: r[k] != ""
    ensures forall x :: x in r <==> x in xs && x != ""
    decreases |xs|
  {
    if xs == [] then []
    else (if xs[0] == "" then [] else [xs[0]]) + NonEmpty(xs[1..])
  }

  /** `xs.map((x) => x.trim())`. */
  function TrimAll(xs: seq<string>): (r: seq<string>)
  {
    seq(|xs|, i requires 0 <= i < |xs| => Trim(xs[i]))
  }

  /** The first index from `lo` up to (not including) `hi` where `p` holds, or -1. */
  function FirstWhere(p: nat -> bool, lo: nat, hi: nat): (r: int)
    requires lo <= hi
    ensures r == -1 || lo <= r < hi
    decreases hi - lo
  {
    if lo == hi then -1
    else if p(lo) then lo
    else FirstWhere(p, lo + 1, hi)
  }

  /** `FirstWhere` finds an index exactly when there is one, and then the first. */
  lemma {:induction false} FirstWhereIsFirst(p: nat -> bool, lo: nat, hi: nat)
    requires lo <= hi
    ensures FirstWhere(p, lo, hi) == -1 <==> forall i: nat | lo <= i < hi :: !p(i)
    ensures FirstWhere(p, lo, hi) != -1 ==> p(FirstWhere(p, lo, hi))
    ensures forall i: nat | lo <= i < FirstWhere(p, lo, hi) :: !p(i)
    decreases hi - lo
  {
    if lo < hi && !p(lo) {
      FirstWhereIsFirst(p, lo + 1, hi);
    }
  }
}

/**
 * The order `Array.prototype.sort` uses on strings when no comparator is
 * given (character by character, a proper prefix first), and insertion into
 * a strictly sorted sequence, which is how a `Set` followed by `sort()` is
 * modelled: the result is the sorted, duplicate-free list of what was added.
 */
module StringOrder {

  predicate Less(a: string, b: string)
    decreases |a|
  {
    if |a| == 0 then |b| > 0
    else |b| > 0 && (a[0] < b[0] || (a[0] == b[0] && Less(a[1..], b[1..])))
  }

  lemma {:induction false} LessIrreflexive(a: string)
    ensures !Less(a, a)
    decreases |a|
  {
    if |a| > 0 {
      LessIrreflexive(a[1..]);
    }
  }

  lemma {:induction false} LessTransitive(a: string, b: string, c: string)
    requires Less(a, b) && Less(b, c)
    ensures Less(a, c)
    decreases |a|
  {
    if |a| > 0 && a[0] == b[0] && b[0] == c[0] {
      LessTransitive(a[1..], b[1..], c[1..]);
    }
  }

  lemma {:induction false} LessTotal(a: string, b: string)
    requires a != b
    ensures Less(a, b) || Less(b, a)
    decreases |a|
  {
    if |a| > 0 && |b| > 0 && a[0] == b[0] {
      assert a == [a[0]] + a[1..] && b == [b[0]] + b[1..];
      LessTotal(a[1..], b[1..]);
    }
  }

  /** Every earlier element is below every later one: sorted and duplicate-free. */
  predicate StrictlySorted(s: seq<string>) {
    forall i, j | 0 <= i < j < |s| :: Less(s[i], s[j])
  }

  /** Adds `x` to a sorted, duplicate-free sequence at its place, unless it is already there. */
  function Insert(s: seq<string>, x: string): (r: seq<string>)
    requires StrictlySorted(s)
    ensures StrictlySorted(r)
    ensures forall y :: y in r <==> y in s || y == x
    decreases |s|
  {
    if s == [] then [x]
    else if x == s[0] then s
    else if Less(x, s[0]) then
      assert forall j | 0 < j < |s| :: Less(x, s[j]) by {
        forall j | 0 < j < |s| ensures Less(x, s[j]) {
          LessTransitive(x, s[0], s[j]);
        }
      }
      [x] + s
    else
      LessTotal(x, s[0]);
      var rest := Insert(s[1..], x);
      assert forall y | y in rest :: Less(s[0], y);
      [s[0]] + rest
  }

  /** The head of a strictly sorted sequence is below every other element. */
  lemma HeadIsLeast(s: seq<string>, y: string)
    requires StrictlySorted(s) && y in s && y != s[0]
    ensures Less(s[0], y)
  {
  }

  /** A strictly sorted sequence is fixed by the elements it holds. */
  lemma {:induction false} SortedUnique(s: seq<string>, t: seq<string>)
    requires StrictlySorted(s) && StrictlySorted(t)
    requires forall y :: y in s <==> y in t
    ensures s == t
    decreases |s|
  {
    assert |s| == 0 <==> |t| == 0 by {
      if |s| > 0 { assert s[0] in t; }
      if |t| > 0 { assert t[0] in s; }
    }
    if |s| > 0 {
      assert s[0] in t && t[0] in s;
      if s[0] != t[0] {
        HeadIsLeast(t, s[0]);
        HeadIsLeast(s, t[0]);
        LessTransitive(s[0], t[0], s[0]);
        LessIrreflexive(s[0]);
        assert false;
      }
      forall y ensures y in s[1..] <==> y in t[1..] {
        if y in s[1..] {
          var k :| 1 <= k < |s| && s[k] == y;
          LessIrreflexive(s[0]);
          assert y in t && y != t[0];
          assert t == [t[0]] + t[1..];
        }
        if y in t[1..] {
          var k :| 1 <= k < |t| && t[k] == y;
          LessIrreflexive(t[0]);
          assert y in s && y != s[0];
          assert s == [s[0]] + s[1..];
        }
      }
      SortedUnique(s[1..], t[1..]);
      assert s == [s[0]] + s[1..] && t == [t[0]] + t[1..];
    }
  }
}

/**
 * A JavaScript `Set` as the sequence of its elements in insertion order, as
 * `Array.from(set)` returns them: adding an element already present changes
 * nothing, adding a new one appends it.
 */
module JsSet {

  /** No element occurs twice. */
  predicate Distinct<T(==)>(s: seq<T>) {
    forall i, j | 0 <= i < j < |s| :: s[i] != s[j]
  }

  /** `set.add(x)`. */
  function Add<T(==)>(s: seq<T>, x: T): (r: seq<T>)
  {
    if x in s then s else s + [x]
  }

  /** `xs.forEach((x) => set.add(x))`, left to right. */
  function AddAll<T(==)>(s: seq<T>, xs: seq<T>): seq<T>
    decreases |xs|
  {
    if xs == [] then s else AddAll(Add(s, xs[0]), xs[1..])
  }

  /** Adding keeps the elements distinct and holds exactly the old ones and the added ones. */
  lemma {:induction false} AddAllSpec<T>(s: seq<T>, xs: seq<T>)
    requires Distinct(s)
    ensures Distinct(AddAll(s, xs))
    ensures forall y :: y in AddAll(s, xs) <==> y in s || y in xs
    decreases |xs|
  {
    if xs != [] {
      AddAllSpec(Add(s, xs[0]), xs[1..]);
      assert xs == [xs[0]] + xs[1..];
    }
  }

  /** An element added earlier keeps its place: the set is a prefix of the result. */
  lemma {:induction false} AddAllExtends<T>(s: seq<T>, xs: seq<T>)
    ensures |s| <= |AddAll(s, xs)| && AddAll(s, xs)[..|s|] == s
    decreases |xs|
  {
    if xs != [] {
      AddAllExtends(Add(s, xs[0]), xs[1..]);
    }
  }
}

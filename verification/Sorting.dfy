/**
 * The `ORDER BY` of the store's queries: an insertion sort by a comparison `le`. The order of
 * rows the comparison ties is one fixed choice; the database promises none.
 */
module Sorting {

  /** Any two values are comparable. */
  ghost predicate Total<T(!new)>(le: (T, T) -> bool) {
    forall a, b :: le(a, b) || le(b, a)
  }

  /** Each element is `le` its successor. */
  predicate Sorted<T>(xs: seq<T>, le: (T, T) -> bool) {
    forall i :: 0 < i < |xs| ==> le(xs[i - 1], xs[i])
  }

  function Insert<T(!new)>(x: T, xs: seq<T>, le: (T, T) -> bool): (r: seq<T>)
    ensures multiset(r) == multiset(xs) + multiset{x}
    ensures |r| == |xs| + 1 && (r[0] == x || (xs != [] && r[0] == xs[0]))
    ensures Total(le) && Sorted(xs, le) ==> Sorted(r, le)
  {
    if xs == [] then
      [x]
    else if le(x, xs[0]) then
      [x] + xs
    else
      var r := [xs[0]] + Insert(x, xs[1..], le);
      assert xs == [xs[0]] + xs[1..];
      r
  }

  /** The elements of `xs`, each as often as in `xs`, in `le` order. */
  function SortBy<T(!new)>(xs: seq<T>, le: (T, T) -> bool): (r: seq<T>)
    ensures multiset(r) == multiset(xs)
    ensures Total(le) ==> Sorted(r, le)
  {
    if xs == [] then
      []
    else
      assert xs == [xs[0]] + xs[1..];
      Insert(xs[0], SortBy(xs[1..], le), le)
  }

  /** String order, code point by code point, a proper prefix first: how the store orders a
      text column. */
  predicate StrLe(a: string, b: string) {
    a == [] || (b != [] && (a[0] < b[0] || (a[0] == b[0] && StrLe(a[1..], b[1..]))))
  }

  lemma {:induction false} StrLeTotal(a: string, b: string)
    ensures StrLe(a, b) || StrLe(b, a)
  {
    if a != [] && b != [] && a[0] == b[0] {
      StrLeTotal(a[1..], b[1..]);
    }
  }
}

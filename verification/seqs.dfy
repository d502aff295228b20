/**
 * Sequence helpers: a sequence that visits every key of a map exactly once
 * stands for the unspecified iteration order of a hash map.
 */
module Seqs {
  predicate NoDup<T(==)>(s: seq<T>)
  {
    forall i, j :: 0 <= i < j < |s| ==> s[i] != s[j]
  }

  /** s lists every element of keys exactly once. */
  predicate IsEnumeration<T(==,!new)>(s: seq<T>, keys: set<T>)
  {
    NoDup(s) && (forall x :: x in s ==> x in keys) && (forall x :: x in keys ==> x in s)
  }

  /** The elements of s that satisfy p, in order. */
  function Filter<T(==,!new)>(s: seq<T>, p: T -> bool): (r: seq<T>)
    ensures |r| <= |s|
    ensures forall x :: x in r <==> x in s && p(x)
    ensures NoDup(s) ==> NoDup(r)
    ensures (forall x :: x in s ==> !p(x)) ==> r == []
  {
    if s == [] then []
    else
      var rest := Filter(s[1..], p);
      assert forall x :: x in rest ==> x in s[1..];
      if p(s[0]) then [s[0]] + rest else rest
  }
}

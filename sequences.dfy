/**
 * The two JavaScript array operations the offline store uses to drop an
 * element: `indexOf`, which yields -1 for a missing element, and
 * `splice(start, 1)`, which counts a negative start from the end.
 */
module Sequences {

  /** `s.indexOf(x)`: the first index holding `x`, or -1. */
  function IndexOf<X(==)>(s: seq<X>, x: X): (r: int)
    ensures -1 <= r < |s|
    ensures r == -1 <==> x !in s
    ensures 0 <= r ==> s[r] == x && forall k :: 0 <= k < r ==> s[k] != x
  {
    if s == [] then -1
    else if s[0] == x then 0
    else
      var k := IndexOf(s[1..], x);
      if k == -1 then -1 else k + 1
  }

  /** `s.splice(start, 1)`: the sequence left after removing one element. */
  function SpliceOne<X>(s: seq<X>, start: int): (r: seq<X>)
    ensures 0 <= start < |s| ==> r == s[..start] + s[start + 1..]
    ensures -|s| <= start < 0 ==> r == s[..|s| + start] + s[|s| + start + 1..]
    ensures start < -|s| && s != [] ==> r == s[1..]
    ensures start >= |s| ==> r == s
    ensures s == [] ==> r == []
  {
    var k := if start < 0 then (if |s| + start < 0 then 0 else |s| + start) else start;
    if k < |s| then s[..k] + s[k + 1..] else s
  }

  /** Removing the element at `i` takes exactly one copy of it out of the multiset. */
  lemma RemoveAt<X>(s: seq<X>, i: int)
    requires 0 <= i < |s|
    ensures multiset(s[..i] + s[i + 1..]) == multiset(s) - multiset{s[i]}
  {
    assert s == s[..i] + [s[i]] + s[i + 1..];
  }

  /** `s.splice(s.indexOf(x), 1)` with `x` present removes one occurrence of `x`. */
  lemma RemovePresent<X>(s: seq<X>, x: X)
    requires x in s
    ensures multiset(SpliceOne(s, IndexOf(s, x))) == multiset(s) - multiset{x}
  {
    var i := IndexOf(s, x);
    assert 0 <= i < |s| && s[i] == x;
    assert SpliceOne(s, i) == s[..i] + s[i + 1..];
    RemoveAt(s, i);
  }

  /**
   * `s.splice(s.indexOf(x), 1)` with `x` absent: the index is -1, and
   * the LAST element is removed instead.
   */
  lemma RemoveAbsent<X>(s: seq<X>, x: X)
    requires x !in s
    ensures s != [] ==> SpliceOne(s, IndexOf(s, x)) == s[..|s| - 1]
    ensures s == [] ==> SpliceOne(s, IndexOf(s, x)) == []
  {
  }

  /**
   * Appending `x` and then splicing out `s.indexOf(x)` returns the same
   * elements; the very sequence only when `x` was not already present.
   */
  lemma PushThenRemove<X>(s: seq<X>, x: X)
    ensures var t := s + [x]; var r := SpliceOne(t, IndexOf(t, x));
      && multiset(r) == multiset(s)
      && (x !in s ==> r == s)
  {
    var t := s + [x];
    RemovePresent(t, x);
    if x !in s {
      assert t[..|s|] == s;
      assert IndexOf(t, x) == |s|;
    }
  }

}

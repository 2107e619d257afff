/**
 * Substring search as JavaScript's String.prototype.indexOf performs it,
 * and a count of '.' characters used to tell storage keys apart.
 */
module Text {

  /** `sub` occurs in `s` starting at index `i`. */
  predicate OccursAt(s: string, sub: string, i: int) {
    0 <= i && i + |sub| <= |s| && s[i..i + |sub|] == sub
  }

  function IndexOfFrom(s: string, sub: string, from: nat): (r: int)
    ensures r == -1 || (from <= r && OccursAt(s, sub, r))
    ensures r == -1 ==> forall j :: from <= j ==> !OccursAt(s, sub, j)
    ensures r != -1 ==> forall j :: from <= j < r ==> !OccursAt(s, sub, j)
    decreases |s| - from
  {
    if from + |sub| > |s| then -1
    else if s[from..from + |sub|] == sub then from
    else IndexOfFrom(s, sub, from + 1)
  }

  /** `s.indexOf(sub)`: the first index where `sub` occurs, or -1. */
  function IndexOf(s: string, sub: string): (r: int)
    ensures -1 <= r
    ensures r == -1 <==> forall j :: !OccursAt(s, sub, j)
    ensures r >= 0 ==> OccursAt(s, sub, r) && forall j :: 0 <= j < r ==> !OccursAt(s, sub, j)
  {
    IndexOfFrom(s, sub, 0)
  }

  /** The test `s.indexOf(sub) > -1` that the store scans use. */
  predicate Contains(s: string, sub: string) {
    IndexOf(s, sub) > -1
  }

  lemma OccurrenceIsContained(s: string, sub: string, i: int)
    requires OccursAt(s, sub, i)
    ensures Contains(s, sub)
  {
  }

  /** Number of '.' characters in `s`. */
  function Dots(s: string): nat {
    if s == [] then 0 else (if s[0] == '.' then 1 else 0) + Dots(s[1..])
  }

  lemma {:induction false} DotsAppend(a: string, b: string)
    ensures Dots(a + b) == Dots(a) + Dots(b)
    decreases |a|
  {
    if a != [] {
      assert (a + b)[1..] == a[1..] + b;
      DotsAppend(a[1..], b);
    } else {
      assert a + b == b;
    }
  }

  lemma {:induction false} NoDots(s: string)
    requires forall k :: 0 <= k < |s| ==> s[k] != '.'
    ensures Dots(s) == 0
    decreases |s|
  {
    if s != [] {
      NoDots(s[1..]);
    }
  }

  /** A string holds at least as many dots as anything it contains. */
  lemma ContainedDots(s: string, sub: string)
    ensures Contains(s, sub) ==> Dots(sub) <= Dots(s)
  {
    if Contains(s, sub) {
      var i := IndexOf(s, sub);
      assert s == s[..i] + sub + s[i + |sub|..];
      DotsAppend(s[..i] + sub, s[i + |sub|..]);
      DotsAppend(s[..i], sub);
    }
  }

}

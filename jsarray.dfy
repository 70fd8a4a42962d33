/** The two `Array.prototype` operations the reconciliation step relies on,
    with JavaScript's semantics: `indexOf` answers -1 for a missing element,
    and `splice(start, 1)` counts a negative start from the end. */
module JsArray {

  /** `s.indexOf(x)`: the first position holding `x`, or -1. */
  function IndexOf<T(==)>(s: seq<T>, x: T): (i: int)
    ensures -1 <= i < |s|
    ensures 0 <= i ==> s[i] == x && forall j :: 0 <= j < i ==> s[j] != x
    ensures i == -1 <==> x !in s
  {
    if s == [] then -1
    else if s[0] == x then 0
    else
      var k := IndexOf(s[1..], x);
      if k < 0 then -1 else k + 1
  }

  /** `s.splice(start, 1)` as it changes `s`: a start below zero counts from
      the end (and is clamped at 0), a start at or past the end removes nothing. */
  function Splice1<T>(s: seq<T>, start: int): (r: seq<T>)
    ensures 0 <= start < |s| ==> r == s[..start] + s[start + 1..]
    ensures start == -1 && |s| > 0 ==> r == s[..|s| - 1]
    ensures start >= |s| ==> r == s
    ensures -1 <= start < |s| && |s| > 0 ==> |r| == |s| - 1
    ensures forall x :: x in r ==> x in s
  {
    var k := if start >= 0 then start else if |s| + start < 0 then 0 else |s| + start;
    if k < |s| then s[..k] + s[k + 1..] else s
  }
}

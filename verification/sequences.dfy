/** Generic sequence helpers: Python's `reversed(...)` and the
    "first element satisfying a test, then break" loop idiom. */
module Sequences {
  import opened Wrappers

  /** The elements of `s` in reverse order, as `reversed(s)` yields them. */
  function Reverse<T>(s: seq<T>): (r: seq<T>)
    ensures |r| == |s|
    ensures forall i :: 0 <= i < |s| ==> r[i] == s[|s| - 1 - i]
  {
    if s == [] then [] else Reverse(s[1..]) + [s[0]]
  }

  /** Index of the first element of `s` that satisfies `wanted`, or None:
      a `for x in s: if wanted(x): ...; break` loop. */
  function FirstWhere<T>(s: seq<T>, wanted: T -> bool): (r: Option<nat>)
    ensures r.Some? ==> r.value < |s| && wanted(s[r.value])
    ensures r.Some? ==> forall j :: 0 <= j < r.value ==> !wanted(s[j])
    ensures r.None? ==> forall j :: 0 <= j < |s| ==> !wanted(s[j])
  {
    if s == [] then None
    else if wanted(s[0]) then Some(0)
    else
      match FirstWhere(s[1..], wanted)
      case None => None
      case Some(k) => Some(k + 1)
  }

  /** Index of the LAST element of `s` satisfying `wanted`, found the way the
      script finds it: the first hit of a scan over `reversed(s)`. */
  function LastWhere<T>(s: seq<T>, wanted: T -> bool): (r: Option<nat>)
    ensures r.Some? ==> r.value < |s| && wanted(s[r.value])
    ensures r.Some? ==> forall j :: r.value < j < |s| ==> !wanted(s[j])
    ensures r.None? ==> forall j :: 0 <= j < |s| ==> !wanted(s[j])
  {
    var rev := Reverse(s);
    match FirstWhere(rev, wanted)
    case None =>
      assert forall j :: 0 <= j < |s| ==> s[j] == rev[|s| - 1 - j];
      None
    case Some(k) =>
      assert forall j :: |s| - 1 - k < j < |s| ==> s[j] == rev[|s| - 1 - j];
      Some(|s| - 1 - k)
  }
}

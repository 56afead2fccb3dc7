/** Positions in a sorted list, as bisect and searchsorted report them. */
module Search {

  predicate Sorted(s: seq<int>) {
    forall i, j :: 0 <= i < j < |s| ==> s[i] <= s[j]
  }

  predicate StrictlySorted(s: seq<int>) {
    forall i, j :: 0 <= i < j < |s| ==> s[i] < s[j]
  }

  /** The number of leading elements smaller than x. */
  function BisectLeft(s: seq<int>, x: int): (k: nat)
    requires Sorted(s)
    ensures k <= |s|
    ensures forall i :: 0 <= i < k ==> s[i] < x
    ensures forall i :: k <= i < |s| ==> x <= s[i]
  {
    if s == [] || x <= s[0] then 0
    else
      var rest := s[1..];
      assert forall i :: 0 < i < |s| ==> s[i] == rest[i - 1];
      1 + BisectLeft(rest, x)
  }

  /** The number of leading elements that are at most x. */
  function BisectRight(s: seq<int>, x: int): (k: nat)
    requires Sorted(s)
    ensures k <= |s|
    ensures forall i :: 0 <= i < k ==> s[i] <= x
    ensures forall i :: k <= i < |s| ==> x < s[i]
  {
    if s == [] || x < s[0] then 0
    else
      var rest := s[1..];
      assert forall i :: 0 < i < |s| ==> s[i] == rest[i - 1];
      1 + BisectRight(rest, x)
  }

  /** A slice with Python's treatment of a negative end. */
  function PySlice<T>(s: seq<T>, lo: nat, hi: int): seq<T> {
    var stop := if hi < 0 then (if |s| + hi < 0 then 0 else |s| + hi) else if hi > |s| then |s| else hi;
    if lo >= stop then [] else s[lo..stop]
  }
}

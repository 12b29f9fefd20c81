/** Keeping the first occurrence of each value: the idiom behind canonical path lists and the
    unknowns of an impact search. */
module Dedupe {

  function FirstOccurrences(s: seq<string>): seq<string> {
    if s == [] then []
    else
      var n := |s| - 1;
      var kept := FirstOccurrences(s[..n]);
      if s[n] in kept then kept else kept + [s[n]]
  }

  lemma OneMore(s: seq<string>, x: string)
    ensures FirstOccurrences(s + [x])
         == if x in FirstOccurrences(s) then FirstOccurrences(s) else FirstOccurrences(s) + [x]
  {
    assert (s + [x])[..|s|] == s;
  }

  /** The same values, once each. */
  lemma {:induction false} SameValuesOnce(s: seq<string>)
    ensures forall x :: x in FirstOccurrences(s) <==> x in s
    ensures forall i, j :: 0 <= i < j < |FirstOccurrences(s)| ==> FirstOccurrences(s)[i] != FirstOccurrences(s)[j]
    decreases |s|
  {
    if s != [] {
      var n := |s| - 1;
      SameValuesOnce(s[..n]);
      assert s == s[..n] + [s[n]];
    }
  }

  /** A value kept earlier occurs before every occurrence of a value kept later. */
  lemma {:induction false} InFirstOccurrenceOrder(s: seq<string>, i: nat, j: nat, k: nat) returns (l: nat)
    requires i < j < |FirstOccurrences(s)| && k < |s| && s[k] == FirstOccurrences(s)[j]
    ensures l < k && s[l] == FirstOccurrences(s)[i]
    decreases |s|
  {
    var n := |s| - 1;
    var kept := FirstOccurrences(s[..n]);
    SameValuesOnce(s[..n]);
    if k == n {
      assert kept[i] in kept;
      l :| 0 <= l < n && s[..n][l] == kept[i];
    } else {
      assert s[..n][k] in s[..n];
      SameValuesOnce(s);
      l := InFirstOccurrenceOrder(s[..n], i, j, k);
    }
  }
}

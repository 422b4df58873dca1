/** Pins are the integers 1..n. Sides of a split and test batches are
    sequences of pins listed in enumeration order. */
module Pins {

  /** Strictly increasing: the order in which pins are enumerated. */
  predicate Ascending(s: seq<int>) {
    forall i, j :: 0 <= i < j < |s| ==> s[i] < s[j]
  }

  /** Every element of `s` lies in lo..hi (both inclusive). */
  predicate InRange(s: seq<int>, lo: int, hi: int) {
    forall i :: 0 <= i < |s| ==> lo <= s[i] <= hi
  }

  /** Appending a pin above every present pin keeps a sequence ascending. */
  lemma AscendingSnoc(s: seq<int>, p: int)
    requires Ascending(s)
    requires forall i :: 0 <= i < |s| ==> s[i] < p
    ensures Ascending(s + [p])
  {
  }
}

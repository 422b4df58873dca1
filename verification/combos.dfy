/** Unordered pin pairs ("combos"), the test a set of pins performs on them,
    and the filtering helpers of the greedy planner. */
module Combos {

  /** A pair of pins `(a, b)`, as produced by the pair enumeration. */
  type Pair = (int, int)

  /** `c` is a pair of the universe for `pinCount` pins: 1 <= a < b <= pinCount. */
  predicate ValidPair(pinCount: int, c: Pair) {
    1 <= c.0 < c.1 <= pinCount
  }

  /** A set of pins tests a pair when exactly one endpoint belongs to it. */
  predicate Covers(pins: seq<int>, c: Pair) {
    (c.0 in pins) != (c.1 in pins)
  }

  /** `a` can be obtained from `b` by deleting elements. */
  predicate IsSubseq<T(==)>(a: seq<T>, b: seq<T>)
    decreases |b|
  {
    |a| == 0 || (|b| > 0 && ((a[0] == b[0] && IsSubseq(a[1..], b[1..])) || IsSubseq(a, b[1..])))
  }

  lemma {:induction false} SubseqShorter<T>(a: seq<T>, b: seq<T>)
    requires IsSubseq(a, b)
    ensures |a| <= |b|
    decreases |b|
  {
    if |a| > 0 {
      if a[0] == b[0] && IsSubseq(a[1..], b[1..]) {
        SubseqShorter(a[1..], b[1..]);
      } else {
        SubseqShorter(a, b[1..]);
      }
    }
  }

  /** Lexicographic order on pairs. */
  predicate LexLess(c: Pair, d: Pair) {
    c.0 < d.0 || (c.0 == d.0 && c.1 < d.1)
  }

  predicate LexAscending(s: seq<Pair>) {
    forall i, j :: 0 <= i < j < |s| ==> LexLess(s[i], s[j])
  }

  /** `tested_combos`: the pairs of `combos` that `pins` tests. */
  function TestedCombos(pins: seq<int>, combos: seq<Pair>): (r: seq<Pair>)
    ensures forall c {:trigger c in r} {:trigger Covers(pins, c), c in combos} ::
      c in r <==> c in combos && Covers(pins, c)
    ensures |r| <= |combos|
  {
    if |combos| == 0 then []
    else
      var rest := TestedCombos(pins, combos[1..]);
      if Covers(pins, combos[0]) then [combos[0]] + rest else rest
  }

  /** `tested_combos` keeps the original order and every copy of a tested
      pair, and drops every copy of an untested one. */
  lemma {:induction false} TestedCombosOrder(pins: seq<int>, combos: seq<Pair>)
    ensures var r := TestedCombos(pins, combos);
      && IsSubseq(r, combos)
      && forall c :: multiset(r)[c] == if Covers(pins, c) then multiset(combos)[c] else 0
  {
    if |combos| > 0 {
      assert combos == [combos[0]] + combos[1..];
      TestedCombosOrder(pins, combos[1..]);
    }
  }

  /** `remove_combos`: the pairs of `combos` that do not occur in `t`. */
  function RemoveCombos(t: seq<Pair>, combos: seq<Pair>): (r: seq<Pair>)
    ensures forall c {:trigger c in r} {:trigger c in t, c in combos} ::
      c in r <==> c in combos && c !in t
    ensures |r| <= |combos|
  {
    if |combos| == 0 then []
    else
      var rest := RemoveCombos(t, combos[1..]);
      if combos[0] !in t then [combos[0]] + rest else rest
  }

  /** When `t` shares a pair with `combos`, removing `t` shortens `combos`:
      this is what makes the planner's loop terminate. */
  lemma {:induction false} RemoveShrinks(t: seq<Pair>, combos: seq<Pair>, c: Pair)
    requires c in t && c in combos
    ensures |RemoveCombos(t, combos)| < |combos|
  {
    if combos[0] != c {
      assert c in combos[1..];
      RemoveShrinks(t, combos[1..], c);
    }
  }

  /** `remove_combos` keeps the original order and every copy of a kept
      pair, and drops every copy of a pair of `t`. */
  lemma {:induction false} RemoveCombosOrder(t: seq<Pair>, combos: seq<Pair>)
    ensures var r := RemoveCombos(t, combos);
      && IsSubseq(r, combos)
      && forall c :: multiset(r)[c] == if c in t then 0 else multiset(combos)[c]
  {
    if |combos| > 0 {
      assert combos == [combos[0]] + combos[1..];
      RemoveCombosOrder(t, combos[1..]);
    }
  }

  /** Splitting `combos` by a tested list: the pairs `pins` tests are
      removed, the others are kept, nothing is lost or duplicated, and each
      kept pair has both or neither endpoint among `pins`. */
  lemma TestedAndKeptPartition(pins: seq<int>, combos: seq<Pair>)
    ensures var t := TestedCombos(pins, combos);
      var kept := RemoveCombos(t, combos);
      && multiset(t) + multiset(kept) == multiset(combos)
      && forall c :: c in kept ==> (c.0 in pins) == (c.1 in pins)
  {
    var t := TestedCombos(pins, combos);
    var kept := RemoveCombos(t, combos);
    TestedCombosOrder(pins, combos);
    RemoveCombosOrder(t, combos);
    forall c
      ensures (multiset(t) + multiset(kept))[c] == multiset(combos)[c]
    {
      assert c in t <==> c in combos && Covers(pins, c);
      if c !in combos {
        assert multiset(combos)[c] == 0;
      }
    }
  }

  /** Pairs `(a, b)` for `b` from `lo` up to `n`, for a fixed `a`. */
  function Row(a: int, lo: int, n: int): (r: seq<Pair>)
    ensures forall c :: c in r <==> c.0 == a && lo <= c.1 <= n
    ensures |r| == if lo > n then 0 else n - lo + 1
    ensures LexAscending(r)
    decreases n - lo
  {
    if lo > n then [] else [(a, lo)] + Row(a, lo + 1, n)
  }

  lemma TriangleStep(m: nat)
    requires m >= 1
    ensures (m - 1) * m / 2 + m == m * (m + 1) / 2
  {
    assert m * (m + 1) == (m - 1) * m + 2 * m;
  }

  /** All pairs `(a', b)` with a <= a' < b <= n, in lexicographic order. */
  function PairsFrom(a: int, n: int): (r: seq<Pair>)
    ensures forall c :: c in r <==> a <= c.0 < c.1 <= n
    ensures LexAscending(r)
    ensures |r| == if a >= n then 0 else (n - a) * (n - a + 1) / 2
    decreases n - a
  {
    if a >= n then []
    else
      var row := Row(a, a + 1, n);
      var rest := PairsFrom(a + 1, n);
      assert forall i :: 0 <= i < |row| ==> row[i] in row;
      assert forall j :: 0 <= j < |rest| ==> rest[j] in rest;
      TriangleStep(n - a);
      row + rest
  }

  /** The initial pair universe `combinations(range(1, n + 1), 2)`: every
      valid pair exactly once, in lexicographic order, n(n-1)/2 of them. */
  function AllPairs(n: int): (r: seq<Pair>)
    ensures forall c :: c in r <==> ValidPair(n, c)
    ensures LexAscending(r)
    ensures |r| == if n <= 1 then 0 else n * (n - 1) / 2
  {
    PairsFrom(1, n)
  }
}

/** The bit-plane bipartition verifier: pins 1..n are split ceil(log2 n)
    times, split `i` sending a pin to side A exactly when bit `i` of its
    zero-based index is clear, and an isolation oracle is asked about each
    split in turn until it first says no. */
module Bipartite {
  import opened Pins
  import opened Bits

  /** One bipartition of the pins, one `(A, B)` entry of the `test_lists`
      that `verify_all_isolated_n` returns. */
  datatype Split = Split(sideA: seq<int>, sideB: seq<int>)

  /** The isolation oracle: true iff every pin of the first side is isolated
      from every pin of the second. */
  type Oracle = (seq<int>, seq<int>) -> bool

  predicate Passes(oracle: Oracle, s: Split) {
    oracle(s.sideA, s.sideB)
  }

  /** Pins `p` and `q` lie on opposite sides of `s`. */
  predicate Separates(s: Split, p: int, q: int) {
    (p in s.sideA && q in s.sideB) || (p in s.sideB && q in s.sideA)
  }

  /** Some split of `tests` that the oracle accepted has `p` and `q` on
      opposite sides, so the pair (p, q) was shown isolated. */
  predicate CheckedApart(tests: seq<Split>, oracle: Oracle, p: int, q: int) {
    exists i :: 0 <= i < |tests| && Separates(tests[i], p, q) && Passes(oracle, tests[i])
  }

  /** The pins of 1..n whose zero-based index has bit `i` equal to `b`, in
      enumeration order: the list `A` of `verify_all_isolated_n` for b = 0,
      its list `B` for b = 1. */
  function Side(n: int, i: nat, b: nat): (s: seq<int>)
    ensures forall p :: p in s <==> 1 <= p <= n && Bit(p - 1, i) == b
    ensures Ascending(s) && InRange(s, 1, n)
    decreases if n <= 0 then 0 else n
  {
    if n <= 0 then []
    else
      var prev := Side(n - 1, i, b);
      if Bit(n - 1, i) == b then prev + [n] else prev
  }

  /** Split `i` of pins 1..n: side A holds the pins whose index has bit `i`
      clear, side B those with it set, each in enumeration order. */
  function BitSplit(n: int, i: nat): (s: Split)
    ensures forall p :: p in s.sideA <==> 1 <= p <= n && Bit(p - 1, i) == 0
    ensures forall p :: p in s.sideB <==> 1 <= p <= n && Bit(p - 1, i) == 1
    ensures Ascending(s.sideA) && Ascending(s.sideB)
  {
    Split(Side(n, i, 0), Side(n, i, 1))
  }

  /** The two sides of a split together hold n pins. */
  lemma {:induction false} BitSplitSize(n: int, i: nat)
    ensures |BitSplit(n, i).sideA| + |BitSplit(n, i).sideB| == if n <= 0 then 0 else n
    decreases if n <= 0 then 0 else n
  {
    if n > 0 {
      BitSplitSize(n - 1, i);
    }
  }

  /** Each split is a partition of 1..n: no pin on both sides, every pin on one. */
  lemma BitSplitPartitions(n: int, i: nat, p: int)
    ensures !(p in BitSplit(n, i).sideA && p in BitSplit(n, i).sideB)
    ensures 1 <= p <= n <==> p in BitSplit(n, i).sideA || p in BitSplit(n, i).sideB
  {
  }

  /** Separation: every two distinct pins end up on opposite sides of one of
      the first ceil(log2 n) splits. */
  lemma BitSplitsSeparate(n: int, p: int, q: int)
    requires 1 <= p <= n && 1 <= q <= n && p != q
    ensures exists i :: 0 <= i < CeilLog2(n) && Separates(BitSplit(n, i), p, q)
  {
    var k := CeilLog2(n);
    BitsSeparate(p - 1, q - 1, k);
    var i :| 0 <= i < k && Bit(p - 1, i) != Bit(q - 1, i);
    assert Separates(BitSplit(n, i), p, q);
  }

  /** No fewer bit planes suffice: pin 1 (index 0) and pin 2^(k-1) + 1
      (index 2^(k-1)) are both present and agree on every bit below k - 1. */
  lemma FewerPlanesDoNotSeparate(n: int)
    requires n >= 2
    ensures var far := Pow2(CeilLog2(n) - 1) + 1;
      && 1 < far <= n
      && forall i :: 0 <= i < CeilLog2(n) - 1 ==> !Separates(BitSplit(n, i), 1, far)
  {
    var m := CeilLog2(n) - 1;
    forall i | 0 <= i < m
      ensures !Separates(BitSplit(n, i), 1, Pow2(m) + 1)
    {
      LowBitsOfPow2(m, i);
    }
  }

  /** No pin is on both sides of `s`. */
  predicate Disjoint(s: Split) {
    forall p :: p in s.sideA ==> p !in s.sideB
  }

  /** No split of `splits` puts `p` and `q` on opposite sides. */
  predicate NeverApart(splits: seq<Split>, p: int, q: int) {
    forall i :: 0 <= i < |splits| ==> !Separates(splits[i], p, q)
  }

  /** A set of at least two pins holds two distinct ones. */
  lemma TwoMembers(pins: set<int>)
    requires |pins| >= 2
    ensures exists p, q :: p in pins && q in pins && p != q
  {
    if forall p :: p !in pins { assert false; }
    var p :| p in pins;
    var others := pins - {p};
    assert pins == others + {p} && p !in others;
    assert |others| == |pins| - 1;
    if forall q :: q !in others { assert false; }
    var q :| q in others;
  }

  /** Pigeonhole: m splits can tell at most 2^m pins apart, so a set of more
      pins holds two that no split separates. */
  lemma {:induction false} TooManyPinsMeet(splits: seq<Split>, pins: set<int>)
    requires forall i :: 0 <= i < |splits| ==> Disjoint(splits[i])
    requires |pins| > Pow2(|splits|)
    ensures exists p, q :: p in pins && q in pins && p != q && NeverApart(splits, p, q)
    decreases |splits|
  {
    if |splits| == 0 {
      TwoMembers(pins);
      var p, q :| p in pins && q in pins && p != q;
      assert NeverApart(splits, p, q);
    } else {
      var s := splits[0];
      var rest := splits[1..];
      var onA := set p | p in pins && p in s.sideA;
      var offA := pins - onA;
      assert pins == onA + offA && onA * offA == {};
      var part := if |onA| > Pow2(|rest|) then onA else offA;
      assert |part| > Pow2(|rest|);
      forall i | 0 <= i < |rest| ensures Disjoint(rest[i]) {
        assert rest[i] == splits[i + 1];
      }
      TooManyPinsMeet(rest, part);
      var p, q :| p in part && q in part && p != q && NeverApart(rest, p, q);
      forall i | 0 <= i < |splits| ensures !Separates(splits[i], p, q) {
        if i > 0 {
          assert splits[i] == rest[i - 1];
        }
      }
      assert NeverApart(splits, p, q);
    }
  }

  /** The pins 1..n as a set. */
  function PinSet(n: int): (r: set<int>)
    ensures forall p :: p in r <==> 1 <= p <= n
    ensures |r| == if n <= 0 then 0 else n
    decreases if n <= 0 then 0 else n
  {
    if n <= 0 then {} else PinSet(n - 1) + {n}
  }

  /** Fewer than ceil(log2 n) calls can never suffice, whatever the
      bipartitions: among any fewer splits with disjoint sides, two distinct
      pins of 1..n lie on opposite sides of none of them. */
  lemma FewerSplitsCannotSeparate(n: int, splits: seq<Split>)
    requires forall i :: 0 <= i < |splits| ==> Disjoint(splits[i])
    requires |splits| < CeilLog2(n)
    ensures exists p, q :: 1 <= p <= n && 1 <= q <= n && p != q && NeverApart(splits, p, q)
  {
    Pow2Monotone(|splits|, CeilLog2(n) - 1);
    var pins := PinSet(n);
    TooManyPinsMeet(splits, pins);
    var p, q :| p in pins && q in pins && p != q && NeverApart(splits, p, q);
  }

  /** The first split halves the pins: side A gets the ceiling, B the floor. */
  lemma {:induction false} FirstSplitSizes(n: int)
    requires n >= 0
    ensures |BitSplit(n, 0).sideA| == n - n / 2
    ensures |BitSplit(n, 0).sideB| == n / 2
    decreases n
  {
    if n > 0 {
      FirstSplitSizes(n - 1);
    }
  }

  /** Not every split is balanced: with five pins, split 2 puts the indices
      0..3 on side A and only index 4 on side B. */
  lemma LaterSplitUnbalanced()
    ensures |BitSplit(5, 2).sideA| == 4 && |BitSplit(5, 2).sideB| == 1
  {
    assert Bit(4, 2) == 1;
    assert BitSplit(5, 2) == Split([1, 2, 3, 4], [5]);
  }

  /** With four pins: two splits, ({1, 3}, {2, 4}) and ({1, 2}, {3, 4}). */
  lemma FourPins()
    ensures CeilLog2(4) == 2
    ensures BitSplit(4, 0) == Split([1, 3], [2, 4])
    ensures BitSplit(4, 1) == Split([1, 2], [3, 4])
  {
    FourPinsLowBit();
    FourPinsHighBit();
  }

  lemma FourPinsLowBit()
    ensures Side(4, 0, 0) == [1, 3] && Side(4, 0, 1) == [2, 4]
  {
    assert Side(2, 0, 0) == [1] && Side(2, 0, 1) == [2];
    assert Side(3, 0, 0) == [1, 3] && Side(3, 0, 1) == [2];
  }

  lemma FourPinsHighBit()
    ensures Side(4, 1, 0) == [1, 2] && Side(4, 1, 1) == [3, 4]
  {
    assert Side(2, 1, 0) == [1, 2] && Side(2, 1, 1) == [];
    assert Side(3, 1, 0) == [1, 2] && Side(3, 1, 1) == [3];
  }

  /** Queries the oracle on split 0, 1, ... up to ceil(log2 n) - 1 and stops
      at the first split it rejects. `tests` lists the splits queried, the
      rejected one last; for n <= 1 there is nothing to split and the result
      is success with no splits (`verify_all_isolated_n` returns a bare `True` there). */
  method VerifyAllIsolated(n: int, oracle: Oracle) returns (ok: bool, tests: seq<Split>)
    ensures n <= 1 ==> ok && tests == []
    ensures |tests| <= CeilLog2(n)
    ensures forall i :: 0 <= i < |tests| ==> tests[i] == BitSplit(n, i)
    ensures forall i :: 0 <= i < |tests| - 1 ==> Passes(oracle, tests[i])
    ensures ok <==> forall i :: 0 <= i < CeilLog2(n) ==> Passes(oracle, BitSplit(n, i))
    ensures ok ==> |tests| == CeilLog2(n)
    ensures !ok ==> 0 < |tests| && !Passes(oracle, tests[|tests| - 1])
    ensures ok ==> forall p, q :: 1 <= p <= n && 1 <= q <= n && p != q ==>
      CheckedApart(tests, oracle, p, q)
  {
    if n <= 1 {
      return true, [];
    }
    var k := CeilLog2(n);
    tests := [];
    var i := 0;
    while i < k
      invariant 0 <= i <= k
      invariant |tests| == i
      invariant forall j :: 0 <= j < i ==> tests[j] == BitSplit(n, j)
      invariant forall j :: 0 <= j < i ==> Passes(oracle, tests[j])
    {
      var split := BitSplit(n, i);
      tests := tests + [split];
      if !oracle(split.sideA, split.sideB) {
        return false, tests;
      }
      i := i + 1;
    }
    ok := true;
    forall p, q | 1 <= p <= n && 1 <= q <= n && p != q
      ensures CheckedApart(tests, oracle, p, q)
    {
      BitSplitsSeparate(n, p, q);
    }
  }
}

/** The greedy pair-coverage planner: batches of pins are built one at a
    time, each by a single ascending scan over the pins that keeps a pin when
    the coverage of the batch extended by it beats the baseline, the
    tentative coverage computed for the previous candidate, until every pair
    of the universe has been tested by some batch. */
module MaxCombo {
  import opened Pins
  import opened Combos

  /** Every pair of `combos` belongs to the universe for `pinCount` pins. */
  predicate AllValid(pinCount: int, combos: seq<Pair>) {
    forall c :: c in combos ==> ValidPair(pinCount, c)
  }

  /** A batch as the planner emits it: ascending pins of 1..pinCount, at
      most pinCount / 2 + 1 of them (the cap is tested before appending). */
  predicate WellFormedBatch(pinCount: int, pins: seq<int>) {
    Ascending(pins) && InRange(pins, 1, pinCount) && |pins| <= pinCount / 2 + 1
  }

  /** `a` is an initial segment of `b`. */
  predicate IsPrefix(a: seq<int>, b: seq<int>) {
    |a| <= |b| && a == b[..|a|]
  }

  /** `new_amount_tested`: how many remaining pairs `pins` tests. */
  function Coverage(pins: seq<int>, combos: seq<Pair>): (r: nat)
    ensures r <= |combos|
  {
    |TestedCombos(pins, combos)|
  }

  /** A batch has positive coverage exactly when it tests some remaining pair. */
  lemma CoverageMeaning(pins: seq<int>, combos: seq<Pair>)
    ensures Coverage(pins, combos) > 0 <==> exists c :: c in combos && Covers(pins, c)
  {
    var t := TestedCombos(pins, combos);
    if |t| > 0 {
      assert t[0] in t;
    } else {
      forall c | c in combos
        ensures !Covers(pins, c)
      {
        assert c !in t;
      }
    }
  }

  /** The scan over candidate pins `pin`, `pin + 1`, ..., `pinCount`, with the
      batch `pins` built so far and the baseline `previous`. A candidate is
      kept when the coverage of the batch extended by it exceeds the
      baseline, and the baseline then becomes that tentative coverage
      whether the candidate was kept or not. The scan stops once the batch
      has more than pinCount / 2 pins. */
  function ScanPins(pinCount: nat, combos: seq<Pair>, pin: int, pins: seq<int>, previous: int): (r: seq<int>)
    ensures |pins| <= |r|
    decreases pinCount + 1 - pin
  {
    if pin > pinCount || |pins| > pinCount / 2 then pins
    else
      var tentative := Coverage(pins + [pin], combos);
      var next := if tentative > previous then pins + [pin] else pins;
      ScanPins(pinCount, combos, pin + 1, next, tentative)
  }

  /** Appending candidate `pin` to a batch of smaller pins extends it and
      keeps it ascending and within 1..pin. */
  lemma AppendCandidate(pins: seq<int>, pin: int)
    requires 1 <= pin
    requires Ascending(pins) && InRange(pins, 1, pin - 1)
    ensures IsPrefix(pins, pins + [pin])
    ensures Ascending(pins + [pin]) && InRange(pins + [pin], 1, pin)
  {
    AscendingSnoc(pins, pin);
    assert (pins + [pin])[..|pins|] == pins;
  }

  /** A prefix of a prefix is a prefix. */
  lemma PrefixTrans(a: seq<int>, b: seq<int>, c: seq<int>)
    requires IsPrefix(a, b) && IsPrefix(b, c)
    ensures IsPrefix(a, c)
  {
    assert c[..|a|] == c[..|b|][..|a|];
  }

  /** The scan only appends: the batch it starts from is a prefix of the
      batch it ends with. */
  lemma {:induction false} ScanExtends(pinCount: nat, combos: seq<Pair>, pin: int, pins: seq<int>, previous: int)
    ensures IsPrefix(pins, ScanPins(pinCount, combos, pin, pins, previous))
    decreases pinCount + 1 - pin
  {
    if pin <= pinCount && |pins| <= pinCount / 2 {
      var tentative := Coverage(pins + [pin], combos);
      if tentative > previous {
        var r := ScanPins(pinCount, combos, pin + 1, pins + [pin], tentative);
        assert ScanPins(pinCount, combos, pin, pins, previous) == r;
        ScanExtends(pinCount, combos, pin + 1, pins + [pin], tentative);
        assert (pins + [pin])[..|pins|] == pins;
        PrefixTrans(pins, pins + [pin], r);
      } else {
        assert ScanPins(pinCount, combos, pin, pins, previous)
          == ScanPins(pinCount, combos, pin + 1, pins, tentative);
        ScanExtends(pinCount, combos, pin + 1, pins, tentative);
      }
    }
  }

  /** Each appended pin exceeds the ones before, and the size test before
      each append caps the batch at pinCount / 2 + 1. */
  lemma {:induction false} ScanShape(pinCount: nat, combos: seq<Pair>, pin: int, pins: seq<int>, previous: int)
    requires 1 <= pin <= pinCount + 1
    requires Ascending(pins) && InRange(pins, 1, pin - 1)
    requires |pins| <= pinCount / 2 + 1
    ensures WellFormedBatch(pinCount, ScanPins(pinCount, combos, pin, pins, previous))
    decreases pinCount + 1 - pin
  {
    if pin <= pinCount && |pins| <= pinCount / 2 {
      var tentative := Coverage(pins + [pin], combos);
      AppendCandidate(pins, pin);
      if tentative > previous {
        assert ScanPins(pinCount, combos, pin, pins, previous)
          == ScanPins(pinCount, combos, pin + 1, pins + [pin], tentative);
        ScanShape(pinCount, combos, pin + 1, pins + [pin], tentative);
      } else {
        assert ScanPins(pinCount, combos, pin, pins, previous)
          == ScanPins(pinCount, combos, pin + 1, pins, tentative);
        ScanShape(pinCount, combos, pin + 1, pins, tentative);
      }
    }
  }

  /** The first pin of an empty batch is kept exactly when it tests some
      remaining pair on its own, and the baseline becomes its coverage. */
  lemma ScanFromEmpty(pinCount: nat, combos: seq<Pair>, pin: int)
    requires pin <= pinCount
    ensures var alone := Coverage([pin], combos);
      ScanPins(pinCount, combos, pin, [], 0)
        == ScanPins(pinCount, combos, pin + 1, if alone > 0 then [pin] else [], alone)
  {
    assert [] + [pin] == [pin];
  }

  /** One batch: the scan from pin 1 with an empty batch and baseline 0. */
  function Batch(pinCount: nat, combos: seq<Pair>): (pins: seq<int>)
    ensures WellFormedBatch(pinCount, pins)
  {
    ScanShape(pinCount, combos, 1, [], 0);
    ScanPins(pinCount, combos, 1, [], 0)
  }

  /** Once the batch tests some remaining pair, it still does at the end
      of the scan: every later acceptance beats a baseline that is >= 0. */
  lemma {:induction false} ScanKeepsCoverage(pinCount: nat, combos: seq<Pair>, pin: int, pins: seq<int>, previous: int)
    requires previous >= 0
    requires |pins| > 0 ==> Coverage(pins, combos) > 0
    ensures var r := ScanPins(pinCount, combos, pin, pins, previous);
      |r| > 0 ==> Coverage(r, combos) > 0
    decreases pinCount + 1 - pin
  {
    if pin > pinCount || |pins| > pinCount / 2 {
    } else {
      var tentative := Coverage(pins + [pin], combos);
      var next := if tentative > previous then pins + [pin] else pins;
      ScanKeepsCoverage(pinCount, combos, pin + 1, next, tentative);
    }
  }

  /** While nothing has been accepted the baseline stays 0, so the scan
      accepts the first candidate that is an endpoint of a remaining pair. */
  lemma {:induction false} ScanAcceptsFirstUsedPin(pinCount: nat, combos: seq<Pair>, pin: int)
    requires 1 <= pin <= pinCount + 1
    requires AllValid(pinCount, combos)
    requires exists c :: c in combos && pin <= c.0
    ensures var r := ScanPins(pinCount, combos, pin, [], 0);
      && |r| > 0
      && Coverage([r[0]], combos) > 0
      && forall c :: c in combos && pin <= c.0 ==> r[0] <= c.0
    decreases pinCount + 1 - pin
  {
    var w :| w in combos && pin <= w.0;
    assert ValidPair(pinCount, w);
    var tentative := Coverage([pin], combos);
    var r := ScanPins(pinCount, combos, pin, [], 0);
    ScanFromEmpty(pinCount, combos, pin);
    if tentative > 0 {
      ScanExtends(pinCount, combos, pin + 1, [pin], tentative);
      assert r[0] == [pin][0];
    } else {
      NotEndpoint(pinCount, combos, pin);
      ScanAcceptsFirstUsedPin(pinCount, combos, pin + 1);
      forall d | d in combos && pin <= d.0
        ensures r[0] <= d.0
      {
        assert pin + 1 <= d.0;
      }
    }
  }

  /** A pin that tests no remaining pair on its own is not the lower end
      of any remaining pair. */
  lemma NotEndpoint(pinCount: nat, combos: seq<Pair>, pin: int)
    requires AllValid(pinCount, combos)
    requires Coverage([pin], combos) == 0
    ensures forall c :: c in combos ==> c.0 != pin
  {
    forall c | c in combos
      ensures Coverage([c.0], combos) > 0
    {
      assert ValidPair(pinCount, c);
      assert Covers([c.0], c);
      assert c in TestedCombos([c.0], combos);
    }
  }

  /** While pairs remain, the next batch starts with the smallest pin that
      occurs in a remaining pair and tests at least one remaining pair. */
  lemma BatchCoversRemainingPair(pinCount: nat, combos: seq<Pair>)
    requires AllValid(pinCount, combos)
    requires |combos| > 0
    ensures var pins := Batch(pinCount, combos);
      && |pins| > 0
      && Coverage(pins, combos) > 0
      && Coverage([pins[0]], combos) > 0
      && forall c :: c in combos ==> pins[0] <= c.0
  {
    assert combos[0] in combos && ValidPair(pinCount, combos[0]);
    ScanAcceptsFirstUsedPin(pinCount, combos, 1);
    ScanKeepsCoverage(pinCount, combos, 1, [], 0);
  }

  /** The baseline can fall below the batch's real coverage, and a later
      acceptance can then lower it. With pairs (1, 3), (1, 4), (2, 3) and four
      pins: pins 1 and 2 are kept (coverage 3); pin 3 is rejected but sets
      the baseline to 1; pin 4 is kept because 2 > 1, although it takes the
      coverage from 3 down to 2. The batch also reaches the cap 4 / 2 + 1. */
  lemma BaselineCanDrop()
    ensures var combos := [(1, 3), (1, 4), (2, 3)];
      && Batch(4, combos) == [1, 2, 4]
      && Coverage([1, 2], combos) == 3
      && Coverage([1, 2, 3], combos) == 1
      && Coverage([1, 2, 4], combos) == 2
      && |Batch(4, combos)| == 4 / 2 + 1
  {
    var combos := [(1, 3), (1, 4), (2, 3)];
    assert Coverage([1], combos) == 2;
    assert Coverage([1, 2], combos) == 3;
    assert Coverage([1, 2, 3], combos) == 1;
    assert Coverage([1, 2, 4], combos) == 2;
    assert [] + [1] == [1] && [1] + [2] == [1, 2];
    assert [1, 2] + [3] == [1, 2, 3] && [1, 2] + [4] == [1, 2, 4];
    assert ScanPins(4, combos, 1, [], 0) == ScanPins(4, combos, 2, [1], 2);
    assert ScanPins(4, combos, 2, [1], 2) == ScanPins(4, combos, 3, [1, 2], 3);
    assert ScanPins(4, combos, 3, [1, 2], 3) == ScanPins(4, combos, 4, [1, 2], 1);
    assert ScanPins(4, combos, 4, [1, 2], 1) == ScanPins(4, combos, 5, [1, 2, 4], 2);
  }

  /** One iteration of the outer loop: the batch built and the remaining
      pairs it was credited with (those removed after it). */
  datatype Round = Round(batch: seq<int>, credited: seq<Pair>)

  /** The outer loop from the remaining pairs `combos`: build a batch,
      remove the pairs it tests, repeat until nothing remains. Each round
      removes at least one pair, so there are at most |combos| rounds. */
  function RunFrom(pinCount: nat, combos: seq<Pair>): (rounds: seq<Round>)
    requires AllValid(pinCount, combos)
    ensures |rounds| <= |combos|
    ensures |combos| > 0 ==> |rounds| > 0
    ensures forall j :: 0 <= j < |rounds| ==>
      WellFormedBatch(pinCount, rounds[j].batch) && |rounds[j].credited| > 0
    decreases |combos|
  {
    if |combos| == 0 then []
    else
      var pins := Batch(pinCount, combos);
      var tested := TestedCombos(pins, combos);
      BatchCoversRemainingPair(pinCount, combos);
      assert tested[0] in tested && tested[0] in combos;
      RemoveShrinks(tested, combos, tested[0]);
      var rest := RemoveCombos(tested, combos);
      [Round(pins, tested)] + RunFrom(pinCount, rest)
  }

  /** The first round of a non-empty run and the run that follows it. */
  lemma RunUnfold(pinCount: nat, combos: seq<Pair>)
    requires AllValid(pinCount, combos)
    requires |combos| > 0
    ensures var pins := Batch(pinCount, combos);
      var tested := TestedCombos(pins, combos);
      var rest := RemoveCombos(tested, combos);
      && AllValid(pinCount, rest)
      && |rest| < |combos|
      && RunFrom(pinCount, combos) == [Round(pins, tested)] + RunFrom(pinCount, rest)
  {
    var pins := Batch(pinCount, combos);
    var tested := TestedCombos(pins, combos);
    BatchCoversRemainingPair(pinCount, combos);
    assert tested[0] in tested && tested[0] in combos;
    RemoveShrinks(tested, combos, tested[0]);
  }

  /** Batch `j` tests `c` and no earlier batch does. */
  predicate FirstCoveredAt(rounds: seq<Round>, c: Pair, j: int)
    requires 0 <= j < |rounds|
  {
    Covers(rounds[j].batch, c) && forall i :: 0 <= i < j ==> !Covers(rounds[i].batch, c)
  }

  /** Dropping the first round: batch `j` is the first to test `c` exactly
      when the dropped batch does not test it and batch `j - 1` is the first
      of the remaining ones to test it. */
  lemma FirstCoveredShift(rounds: seq<Round>, first: Round, later: seq<Round>, c: Pair, j: int)
    requires rounds == [first] + later
    requires 0 < j < |rounds|
    ensures FirstCoveredAt(rounds, c, j) <==> !Covers(first.batch, c) && FirstCoveredAt(later, c, j - 1)
  {
    assert rounds[0] == first;
    assert forall i :: 0 <= i < j - 1 ==> rounds[i + 1] == later[i];
    if !Covers(first.batch, c) && FirstCoveredAt(later, c, j - 1) {
      forall i | 0 <= i < j
        ensures !Covers(rounds[i].batch, c)
      {
        if i > 0 {
          assert rounds[i] == later[i - 1];
        }
      }
    }
  }

  /** Pair `c` is credited to a batch exactly when it remains and the batch
      tests it, and it stays for later batches exactly when it remains and
      the batch does not test it. */
  lemma CreditOrKeep(pins: seq<int>, combos: seq<Pair>, c: Pair)
    ensures var tested := TestedCombos(pins, combos);
      && (c in tested <==> c in combos && Covers(pins, c))
      && (c in RemoveCombos(tested, combos) <==> c in combos && !Covers(pins, c))
  {
  }

  /** A pair is credited to round `j` exactly when it was one of the pairs
      to cover and batch `j` is the first batch that tests it. */
  lemma {:induction false} CreditGoesToFirstCover(pinCount: nat, combos: seq<Pair>, c: Pair, j: int)
    requires AllValid(pinCount, combos)
    requires 0 <= j < |RunFrom(pinCount, combos)|
    ensures var rounds := RunFrom(pinCount, combos);
      c in rounds[j].credited <==> c in combos && FirstCoveredAt(rounds, c, j)
    decreases |combos|
  {
    var rounds := RunFrom(pinCount, combos);
    var pins := Batch(pinCount, combos);
    var tested := TestedCombos(pins, combos);
    var rest := RemoveCombos(tested, combos);
    RunUnfold(pinCount, combos);
    CreditOrKeep(pins, combos, c);
    if j == 0 {
      assert rounds[0] == Round(pins, tested);
    } else {
      var later := RunFrom(pinCount, rest);
      assert rounds[j] == later[j - 1];
      CreditGoesToFirstCover(pinCount, rest, c, j - 1);
      FirstCoveredShift(rounds, Round(pins, tested), later, c, j);
    }
  }

  /** Every pair to cover is credited to some round. */
  lemma {:induction false} EveryPairCredited(pinCount: nat, combos: seq<Pair>, c: Pair)
    requires AllValid(pinCount, combos)
    requires c in combos
    ensures var rounds := RunFrom(pinCount, combos);
      exists j :: 0 <= j < |rounds| && c in rounds[j].credited
    decreases |combos|
  {
    var rounds := RunFrom(pinCount, combos);
    var pins := Batch(pinCount, combos);
    var tested := TestedCombos(pins, combos);
    var rest := RemoveCombos(tested, combos);
    RunUnfold(pinCount, combos);
    var later := RunFrom(pinCount, rest);
    if c in tested {
      assert rounds[0] == Round(pins, tested);
    } else {
      assert c in rest;
      EveryPairCredited(pinCount, rest, c);
      var j :| 0 <= j < |later| && c in later[j].credited;
      assert rounds[j + 1] == later[j];
    }
  }

  /** No pair is credited twice: the round it is credited to is unique. */
  lemma CreditedOnce(pinCount: nat, combos: seq<Pair>, c: Pair, j: int, k: int)
    requires AllValid(pinCount, combos)
    requires 0 <= j < |RunFrom(pinCount, combos)| && 0 <= k < |RunFrom(pinCount, combos)|
    requires c in RunFrom(pinCount, combos)[j].credited
    requires c in RunFrom(pinCount, combos)[k].credited
    ensures j == k
  {
    CreditGoesToFirstCover(pinCount, combos, c, j);
    CreditGoesToFirstCover(pinCount, combos, c, k);
  }

  /** Some batch of `sets` tests pair `c`. */
  predicate CoveredBySome(sets: seq<seq<int>>, c: Pair) {
    exists j :: 0 <= j < |sets| && Covers(sets[j], c)
  }

  /** The batches of a run, in order. */
  function Batches(rounds: seq<Round>): (sets: seq<seq<int>>)
    ensures |sets| == |rounds|
    ensures forall j :: 0 <= j < |rounds| ==> sets[j] == rounds[j].batch
  {
    seq(|rounds|, j requires 0 <= j < |rounds| => rounds[j].batch)
  }

  /** Every pair of the universe is tested by the batch it is credited to. */
  lemma UniverseCovered(pinCount: nat, a: int, b: int)
    requires 1 <= a < b <= pinCount
    ensures CoveredBySome(Batches(RunFrom(pinCount, AllPairs(pinCount))), (a, b))
  {
    var universe := AllPairs(pinCount);
    var rounds := RunFrom(pinCount, universe);
    assert ValidPair(pinCount, (a, b));
    EveryPairCredited(pinCount, universe, (a, b));
    var j :| 0 <= j < |rounds| && (a, b) in rounds[j].credited;
    CreditGoesToFirstCover(pinCount, universe, (a, b), j);
    assert Batches(rounds)[j] == rounds[j].batch;
  }

  /** The planner's result satisfies the contract stated on `Plan`. */
  lemma PlanFacts(pinCount: nat)
    ensures var sets := Batches(RunFrom(pinCount, AllPairs(pinCount)));
      && (forall j :: 0 <= j < |sets| ==> WellFormedBatch(pinCount, sets[j]))
      && (forall a, b :: 1 <= a < b <= pinCount ==> CoveredBySome(sets, (a, b)))
      && |sets| <= pinCount * (pinCount - 1) / 2
      && (pinCount >= 2 ==> |sets| > 0)
  {
    var universe := AllPairs(pinCount);
    var rounds := RunFrom(pinCount, universe);
    forall a, b | 1 <= a < b <= pinCount
      ensures CoveredBySome(Batches(rounds), (a, b))
    {
      UniverseCovered(pinCount, a, b);
    }
    if pinCount >= 2 {
      assert ValidPair(pinCount, (1, 2));
    }
  }

  /** The planner for `pinCount` pins, the planner's list `sets`: every
      batch is well formed, every pair of the universe is tested by some
      batch, and there are at most as many batches as pairs. */
  function Plan(pinCount: nat): (sets: seq<seq<int>>)
    ensures forall j :: 0 <= j < |sets| ==> WellFormedBatch(pinCount, sets[j])
    ensures forall a, b :: 1 <= a < b <= pinCount ==> CoveredBySome(sets, (a, b))
    ensures |sets| <= pinCount * (pinCount - 1) / 2
    ensures pinCount >= 2 ==> |sets| > 0
  {
    PlanFacts(pinCount);
    Batches(RunFrom(pinCount, AllPairs(pinCount)))
  }

  /** With four pins the planner emits the batches [1, 2] and [1, 3]: the
      first tests the four pairs that cross {1, 2}, leaving (1, 2) and (3, 4)
      for the second. (The pin count is a parameter fixed by the requires so
      that the verifier does not try to evaluate the whole plan at once.) */
  lemma FourPinPlan(pinCount: nat)
    requires pinCount == 4
    ensures Plan(pinCount) == [[1, 2], [1, 3]]
  {
    FourPinRounds(pinCount);
    FourPinBatches();
  }

  lemma FourPinBatches()
    ensures Batches([Round([1, 2], [(1, 3), (1, 4), (2, 3), (2, 4)]), Round([1, 3], [(1, 2), (3, 4)])])
      == [[1, 2], [1, 3]]
  {
    var sets := Batches([Round([1, 2], [(1, 3), (1, 4), (2, 3), (2, 4)]), Round([1, 3], [(1, 2), (3, 4)])]);
    assert |sets| == 2 && sets[0] == [1, 2] && sets[1] == [1, 3];
  }

  lemma FourPinRounds(pinCount: nat)
    requires pinCount == 4
    ensures RunFrom(pinCount, AllPairs(pinCount))
      == [Round([1, 2], [(1, 3), (1, 4), (2, 3), (2, 4)]), Round([1, 3], [(1, 2), (3, 4)])]
  {
    var universe := [(1, 2), (1, 3), (1, 4), (2, 3), (2, 4), (3, 4)];
    var tested := [(1, 3), (1, 4), (2, 3), (2, 4)];
    var rest := [(1, 2), (3, 4)];
    FourPinUniverse();
    assert AllPairs(pinCount) == universe;
    FourPinFirstBatch();
    assert Batch(pinCount, universe) == [1, 2];
    FourPinFirstTested();
    FourPinFirstKept();
    assert AllValid(pinCount, universe);
    RunUnfold(pinCount, universe);
    assert RunFrom(pinCount, universe) == [Round([1, 2], tested)] + RunFrom(pinCount, rest);
    FourPinLastRound();
    assert RunFrom(pinCount, rest) == [Round([1, 3], rest)];
  }

  lemma FourPinLastRound()
    ensures RunFrom(4, [(1, 2), (3, 4)]) == [Round([1, 3], [(1, 2), (3, 4)])]
  {
    var rest := [(1, 2), (3, 4)];
    FourPinSecondBatch();
    FourPinSecondCredits();
    RunUnfold(4, rest);
    assert RunFrom(4, []) == [];
  }

  lemma FourPinFirstTested()
    ensures TestedCombos([1, 2], [(1, 2), (1, 3), (1, 4), (2, 3), (2, 4), (3, 4)])
      == [(1, 3), (1, 4), (2, 3), (2, 4)]
  {
    var universe := [(1, 2), (1, 3), (1, 4), (2, 3), (2, 4), (3, 4)];
    assert TestedCombos([1, 2], [(3, 4)]) == [];
    assert TestedCombos([1, 2], [(2, 4), (3, 4)]) == [(2, 4)];
    assert TestedCombos([1, 2], [(2, 3), (2, 4), (3, 4)]) == [(2, 3), (2, 4)];
    assert TestedCombos([1, 2], [(1, 4), (2, 3), (2, 4), (3, 4)]) == [(1, 4), (2, 3), (2, 4)];
    assert universe[1..] == [(1, 3), (1, 4), (2, 3), (2, 4), (3, 4)];
  }

  lemma FourPinFirstKept()
    ensures RemoveCombos([(1, 3), (1, 4), (2, 3), (2, 4)], [(1, 2), (1, 3), (1, 4), (2, 3), (2, 4), (3, 4)])
      == [(1, 2), (3, 4)]
  {
    var tested := [(1, 3), (1, 4), (2, 3), (2, 4)];
    var universe := [(1, 2), (1, 3), (1, 4), (2, 3), (2, 4), (3, 4)];
    assert RemoveCombos(tested, [(3, 4)]) == [(3, 4)];
    assert RemoveCombos(tested, [(2, 4), (3, 4)]) == [(3, 4)];
    assert RemoveCombos(tested, [(2, 3), (2, 4), (3, 4)]) == [(3, 4)];
    assert RemoveCombos(tested, [(1, 4), (2, 3), (2, 4), (3, 4)]) == [(3, 4)];
    assert RemoveCombos(tested, [(1, 3), (1, 4), (2, 3), (2, 4), (3, 4)]) == [(3, 4)];
    assert universe[1..] == [(1, 3), (1, 4), (2, 3), (2, 4), (3, 4)];
    assert [(1, 2)] + [(3, 4)] == [(1, 2), (3, 4)];
  }

  lemma FourPinSecondCredits()
    ensures TestedCombos([1, 3], [(1, 2), (3, 4)]) == [(1, 2), (3, 4)]
    ensures RemoveCombos([(1, 2), (3, 4)], [(1, 2), (3, 4)]) == []
  {
    assert TestedCombos([1, 3], [(3, 4)]) == [(3, 4)];
    assert RemoveCombos([(1, 2), (3, 4)], [(3, 4)]) == [];
  }

  lemma FourPinUniverse()
    ensures AllPairs(4) == [(1, 2), (1, 3), (1, 4), (2, 3), (2, 4), (3, 4)]
  {
    assert PairsFrom(4, 4) == [];
    assert Row(3, 4, 4) == [(3, 4)];
    assert PairsFrom(3, 4) == [(3, 4)];
    assert Row(2, 3, 4) == [(2, 3), (2, 4)];
    assert PairsFrom(2, 4) == [(2, 3), (2, 4), (3, 4)];
    assert Row(1, 2, 4) == [(1, 2), (1, 3), (1, 4)];
  }

  lemma FourPinFirstBatch()
    ensures Batch(4, [(1, 2), (1, 3), (1, 4), (2, 3), (2, 4), (3, 4)]) == [1, 2]
  {
    var combos := [(1, 2), (1, 3), (1, 4), (2, 3), (2, 4), (3, 4)];
    assert [] + [1] == [1] && [1] + [2] == [1, 2];
    assert [1, 2] + [3] == [1, 2, 3] && [1, 2] + [4] == [1, 2, 4];
    assert Coverage([1], combos) == 3;
    assert Coverage([1, 2], combos) == 4;
    assert Coverage([1, 2, 3], combos) == 3;
    assert Coverage([1, 2, 4], combos) == 3;
    assert ScanPins(4, combos, 1, [], 0) == ScanPins(4, combos, 2, [1], 3);
    assert ScanPins(4, combos, 2, [1], 3) == ScanPins(4, combos, 3, [1, 2], 4);
    assert ScanPins(4, combos, 3, [1, 2], 4) == ScanPins(4, combos, 4, [1, 2], 3);
    assert ScanPins(4, combos, 4, [1, 2], 3) == ScanPins(4, combos, 5, [1, 2], 3);
  }

  lemma FourPinSecondBatch()
    ensures Batch(4, [(1, 2), (3, 4)]) == [1, 3]
  {
    var combos := [(1, 2), (3, 4)];
    assert [] + [1] == [1] && [1] + [2] == [1, 2] && [1] + [3] == [1, 3];
    assert [1, 3] + [4] == [1, 3, 4];
    assert Coverage([1], combos) == 1;
    assert Coverage([1, 2], combos) == 0;
    assert Coverage([1, 3], combos) == 2;
    assert Coverage([1, 3, 4], combos) == 1;
    assert ScanPins(4, combos, 1, [], 0) == ScanPins(4, combos, 2, [1], 1);
    assert ScanPins(4, combos, 2, [1], 1) == ScanPins(4, combos, 3, [1], 0);
    assert ScanPins(4, combos, 3, [1], 0) == ScanPins(4, combos, 4, [1, 3], 2);
    assert ScanPins(4, combos, 4, [1, 3], 2) == ScanPins(4, combos, 5, [1, 3], 1);
  }
}

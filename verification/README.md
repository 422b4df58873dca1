# Pin-isolation test planners in Dafny

This project models two small planners for pairwise pin-isolation testing.
Each one chooses groups of pins so that every pair of pins 1..n is checked
for isolation at least once.

- **Bit-plane bipartition verifier** (`verify_all_isolated_n`), module
  `Bipartite`.
  - It makes k = ceil(log2 n) splits of the pins. Split `i` puts pin `p` on
    side A when bit `i` of its zero-based index `p - 1` is clear, and on
    side B otherwise.
  - It asks an isolation oracle about each split in turn and stops at the
    first split the oracle rejects.
  - The oracle is a function parameter. k is the least integer with
    2^k >= n, computed over unbounded integers by `Bits.CeilLog2`.
- **Greedy pair-coverage batcher**, modules `Combos` and `MaxCombo`.
  - It starts from every pair (a, b) with 1 <= a < b <= pin count and
    repeatedly builds one batch of pins by a single ascending scan.
  - The coverage of a batch is the number of remaining pairs it "tests"
    (pairs with exactly one endpoint in the batch). A candidate pin is kept
    when the coverage of the batch extended by it beats the baseline, which
    is the tentative coverage computed for the previous candidate.
  - The pairs the batch tests are then removed (`tested_combos`,
    `remove_combos`). This repeats until no pair remains.
  - The module-level loop of the source, with its hard-coded pin count, is
    lifted into the function `MaxCombo.Plan(pinCount)`.

Shared vocabulary lives in `Pins` (ascending pin lists within a range) and
`Bits` (powers of two, bits, ceiling log2).

Main results:
- Every pair of distinct pins lands on opposite sides of one of the first
  k splits. No family of fewer than k splits with disjoint sides, bit
  splits or any others, separates every pair, so k calls are the fewest.
- The batcher always terminates, because every batch tests at least one
  remaining pair.
- Every pair of the universe is credited to exactly one batch: the first
  batch that tests it.

### The baseline update follows the code

The source updates the coverage baseline on every candidate, accepted or
not. The new baseline is the tentative coverage of the batch extended by
the candidate (max_combo_method.py:30). A different rule is easy to assume
when reading the loop: a rejected candidate would leave the baseline at
the coverage of the batch as it stands, so a pin is kept only when it
raises the batch's own coverage. The model follows the code, not that
rule.

With the code's rule, the baseline can fall below the batch's real
coverage, and a later acceptance can lower the coverage.
`MaxCombo.BaselineCanDrop` shows this on a concrete case:
- four pins, remaining pairs (1, 3), (1, 4), (2, 3), final batch [1, 2, 4];
- the batch [1, 2] tests 3 pairs;
- pin 3 would bring that to 1, so it is rejected, but the baseline becomes 1;
- pin 4 brings it to 2, which beats the baseline, so pin 4 is accepted and
  the batch's coverage falls from 3 to 2.

### The comment on split sizes

The source comment at bipartite_algorithm.py:30 says the sizes of the two
sides differ by at most one.
- It is not true of every split: with five pins, split 2 has sides of
  sizes 4 and 1 (`Bipartite.LaterSplitUnbalanced`).
- Split 0 is the only split proved balanced for every n
  (`Bipartite.FirstSplitSizes`).

The code itself does not depend on the comment.

## Model

| member | source | states |
|---|---|---|
| `Bits.CeilLog2` | bipartite_algorithm.py:14 | k = 0 when n <= 1; otherwise 2^(k-1) < n <= 2^k, so the number of calls is the exact integer ceiling of log2 n |
| `Bits.CeilLog2Least` | bipartite_algorithm.py:14 | no exponent smaller than CeilLog2(n) has a power of two reaching n, so k is the least such exponent |
| `Bits.BitIsShiftedLowBit` | bipartite_algorithm.py:22 | the recursive `Bit(x, i)` equals the source's `(idx >> i) & 1`, written as the lowest bit of x divided by 2^i |
| `Bits.BitsSeparate` | bipartite_algorithm.py:19-22 | two different indices below 2^k differ in one of their k low bits, which is why the bit splits separate every pair |
| `Bipartite.Side` | bipartite_algorithm.py:20-25 | pin p is on the side for bit value b of split i iff 1 <= p <= n and bit i of p - 1 equals b; each side is strictly ascending within 1..n |
| `Bipartite.BitSplit` | bipartite_algorithm.py:20-27 | the pair (A, B) for split i: A holds exactly the pins of 1..n whose index has bit i clear, B exactly those with it set, both strictly ascending |
| `Bipartite.BitSplitPartitions` | bipartite_algorithm.py:20-25 | the two sides of a split are disjoint and together hold exactly the pins 1..n |
| `Bipartite.BitSplitSize` | bipartite_algorithm.py:20-25 | the two sides of a split together have n elements (0 when n <= 0), so no pin is listed twice |
| `Bipartite.BitSplitsSeparate` | bipartite_algorithm.py:18-25 | for all distinct pins p, q of 1..n, one of splits 0..k-1 puts them on opposite sides |
| `Bipartite.FewerPlanesDoNotSeparate` | bipartite_algorithm.py:14 | for n >= 2, pins 1 and 2^(k-1)+1 both exist and no split below k - 1 separates them, so the first k - 1 bit splits are not enough |
| `Bipartite.TooManyPinsMeet` | bipartite_algorithm.py:5-6 | pigeonhole: among more than 2^m pins, any m splits with disjoint sides leave two distinct pins that no split puts on opposite sides |
| `Bipartite.FewerSplitsCannotSeparate` | bipartite_algorithm.py:5-14 | the fewest-calls claim: for any family of fewer than ceil(log2 n) splits with disjoint sides, not only bit splits, two distinct pins of 1..n lie on opposite sides of none of them |
| `Bipartite.FirstSplitSizes` | bipartite_algorithm.py:30 | split 0 gives side A n - n/2 pins and side B n/2 pins |
| `Bipartite.LaterSplitUnbalanced` | bipartite_algorithm.py:30 | with five pins split 2 has sides of sizes 4 and 1, so the balance comment is not true of every split |
| `Bipartite.FourPins` | bipartite_algorithm.py:14-25 | four pins give k = 2 and the splits ([1, 3], [2, 4]) and ([1, 2], [3, 4]) |
| `Bipartite.VerifyAllIsolated` | bipartite_algorithm.py:3-34 | n <= 1 gives success with no splits; split j of the result is bit split j, in order; every split before the last passed; success iff the oracle accepts all k splits, and then there are exactly k of them; on failure the last split is the first rejected one; on success every pair of distinct pins was separated by an accepted split |
| `Combos.TestedCombos` | max_combo_method.py:3-9 | a pair is in the result iff it is a remaining pair with exactly one endpoint among the pins; the result is no longer than the input |
| `Combos.TestedCombosOrder` | max_combo_method.py:3-9 | the result is a subsequence of the input, in input order, and keeps every copy of a tested pair and no copy of an untested one |
| `Combos.RemoveCombos` | max_combo_method.py:11-12 | a pair is in the result iff it is in the input and not in the removal list |
| `Combos.RemoveCombosOrder` | max_combo_method.py:11-12 | the result is a subsequence of the input, in input order, and keeps every copy of a kept pair and no copy of a removed one |
| `Combos.RemoveShrinks` | max_combo_method.py:11-12 | removing a list that shares a pair with the input gives a strictly shorter list |
| `Combos.TestedAndKeptPartition` | max_combo_method.py:32 | the tested pairs and the kept pairs together are exactly the remaining pairs, as multisets; each kept pair has both or neither endpoint in the batch |
| `Combos.Row` | max_combo_method.py:16 | the pairs (a, b) with lo <= b <= n, in lexicographic order, n - lo + 1 of them |
| `Combos.PairsFrom` | max_combo_method.py:16 | the pairs (a', b) with a <= a' < b <= n, in strictly increasing lexicographic order, with the triangle-number count |
| `Combos.AllPairs` | max_combo_method.py:16 | the initial universe: exactly the pairs 1 <= a < b <= n, strictly increasing in lexicographic order (so each pair once), n(n-1)/2 of them |
| `MaxCombo.Coverage` | max_combo_method.py:27 | `len(tested_combos(...))`: the number of remaining pairs a batch tests, never more than the number of remaining pairs |
| `MaxCombo.CoverageMeaning` | max_combo_method.py:27 | a batch's coverage is positive exactly when some remaining pair has exactly one endpoint in the batch |
| `MaxCombo.ScanPins` | max_combo_method.py:24-30 | the greedy rule is this function's definition: while candidates remain and the batch has at most pinCount/2 pins, keep the candidate iff the tentative coverage beats the baseline, then set the baseline to the tentative coverage; its own contract says only that the scan never drops a pin |
| `MaxCombo.ScanExtends` | max_combo_method.py:24-30 | the scan only appends: the batch it starts from is a prefix of the batch it ends with |
| `MaxCombo.ScanShape` | max_combo_method.py:24-30 | from a batch the loop can reach (ascending, below the current candidate, within the cap), the scan ends with a strictly ascending batch within 1..pinCount of at most pinCount/2 + 1 pins |
| `MaxCombo.Batch` | max_combo_method.py:22-30 | every batch is strictly ascending within 1..pinCount and has at most pinCount/2 + 1 pins |
| `MaxCombo.ScanKeepsCoverage` | max_combo_method.py:27-30 | once the batch tests a remaining pair it still does at the end of the scan, because every acceptance beats a baseline that is at least 0 |
| `MaxCombo.ScanAcceptsFirstUsedPin` | max_combo_method.py:24-30 | from an empty batch, the scan keeps a first pin that alone tests a remaining pair and that is no larger than the smaller endpoint of any remaining pair |
| `MaxCombo.NotEndpoint` | max_combo_method.py:3-9 | a pin that alone tests no remaining pair is not the smaller endpoint of any remaining pair |
| `MaxCombo.BatchCoversRemainingPair` | max_combo_method.py:21-30 | while pairs remain, the batch is non-empty and tests at least one remaining pair, and its first pin tests one by itself |
| `MaxCombo.BaselineCanDrop` | max_combo_method.py:30 | with pairs (1, 3), (1, 4), (2, 3) of four pins the batch is [1, 2, 4]; coverage drops from 3 to 2 when pin 4 is accepted, and the batch reaches the pinCount/2 + 1 cap |
| `MaxCombo.RunFrom` | max_combo_method.py:21-32 | the batch loop ends: no more rounds than remaining pairs, at least one round while pairs remain, and every round has a well-formed batch and credits at least one pair |
| `MaxCombo.RunUnfold` | max_combo_method.py:21-32 | one loop iteration: the remaining pairs strictly shrink, stay in the universe, and the later rounds are the run on what remains |
| `MaxCombo.CreditGoesToFirstCover` | max_combo_method.py:31-32 | a pair is credited to round j iff it was to be covered and batch j is the first batch that tests it |
| `MaxCombo.EveryPairCredited` | max_combo_method.py:21-32 | every pair to be covered is credited to some round |
| `MaxCombo.CreditedOnce` | max_combo_method.py:31-32 | no pair is credited to two different rounds |
| `MaxCombo.Plan` | max_combo_method.py:16-32 | all batches are well formed; every pair of the universe is tested by some batch; there are at most pinCount(pinCount-1)/2 batches, and at least one when pinCount >= 2 |
| `MaxCombo.FourPinPlan` | max_combo_method.py:16-32 | with four pins the plan is exactly [[1, 2], [1, 3]] |

## Left out

- Floating-point `math.log2` (bipartite_algorithm.py:14): k is the exact integer ceiling of log2 n. For very large n, float rounding could make the source's k differ; that is not modelled.
- Bipartite.VerifyAllIsolated: the source returns a bare `True` when n <= 1 and a pair otherwise. The model returns (true, []) in that case.
- Bipartite.VerifyAllIsolated: the oracle is a pure function parameter, so the contract does not record oracle calls. That the oracle is asked once per split in `tests`, and about no later split, is true of the method body but not stated in its ensures.
- The stub `check_isolation` (bipartite_algorithm.py:37-38) and the `__main__` block with its printing (bipartite_algorithm.py:41-45): not modelled, because they are a placeholder oracle and I/O.
- The printing at max_combo_method.py:34-35: output only.
- The hard-coded `pin_count = 50` and module-level execution (max_combo_method.py:15): not modelled as such. The loop is a function of the pin count instead.
- MaxCombo.ScanPins: its contract states only that the batch never shrinks. That the scan only appends is stated by `MaxCombo.ScanExtends`; that it keeps the batch ascending and respects the cap is stated by `MaxCombo.ScanShape` for the states the loop reaches; stating it on the function itself made its callers' proofs too costly.
- MaxCombo.Plan: the pin count is a natural number. A negative count gives an empty universe and an empty plan in the source too.
- MaxCombo.Plan: makes no claim that the number of batches is optimal or near-optimal; the source makes none either.
- `itertools.combinations`: not modelled as a library call. `Combos.AllPairs` specifies the universe it generates directly.
- Bipartite.LaterSplitUnbalanced: the comment is not true of every split (split 2 of five pins is 4 to 1). Split 0 is the only split proved balanced for every n; which later splits are balanced for which n is not modelled.

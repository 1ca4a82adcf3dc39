# Test suite minimisation, modelled in Dafny

This project models the search core of a Java tool that minimises a test
suite. A test suite is a chromosome: a vector of booleans with one gene per
test case, where a true gene selects that test. The tool reads a coverage
matrix (tests by lines), builds two fitness functions from it, and searches
for the Pareto front of suites that are small and cover many lines. The two
fitness functions are the share of selected tests (minimised) and the share
of covered lines (maximised). There are two searches: NSGA-II and a Random
Search seeded with greedy and single-test suites. The front found is scored
by its hyper-volume.

The model is split into one module per part of the tool:

- `Wrappers`: `Result` (with the Java exceptions the core can throw),
  `Option` and helpers.
- `Randomness`: the random source. It is a stream of reals in [0, 1) with a
  cursor, in a class `Random` whose `NextDouble` and `NextInt` advance the
  cursor.
- `Sorting`: the stable sort (`List.sort`, `Arrays.sort`) as a stable
  insertion sort on keys in the extended reals.
- `Collections`: facts about sequences without repeats and about
  permutations of positions.
- `Chromosomes`: `TestSuiteChromosome`, with its constructor and its
  "at least one test" repair, the queries, `copy`, `equals` and `toString`.
- `BitFlipMutation`, `SinglePointCrossover`, `Variation`: the operators, and
  the identity operators a chromosome falls back on.
- `ChromosomeGenerator`: the generator of random suites with a size biased
  towards small suites.
- `FitnessFunctions`: `FitnessFunction` with its comparator, `best` and
  `andThenAsDouble`.
- `StoppingConditions`: `MaxFitnessEvaluations` as a class with Java's 32-bit
  `int` counter, and the default `notifyFitnessEvaluations` of
  `StoppingCondition`.
- `Selection`: binary tournament selection with its redraw loop.
- `Pareto`: dominance between the two objectives, and the Pareto fronts
  defined layer by layer.
- `NondominatedSort`: the fast non-dominated sort, proved to compute those
  fronts.
- `Crowding`: the crowding distance of a front.
- `Survival`: the comparators and the choice of the next population.
- `Nsga2`: the `NSGA2` class, with its rank and crowding tables, the
  generational loop and the final front.
- `RandomSearch`: the `RandomSearch` class: its archive of non-dominated
  suites, the greedy prefixes, the top-K single tests and the sampling
  phase.
- `Builder`: `AlgorithmBuilder`: the two fitness functions and the choice of
  the algorithm.
- `HyperVolume`: `computeHyperVolume`.
- `MatrixParser`: `parseCoverageMatrix`, on the lines of the file.

Code that updates objects in place is modelled with classes and methods. The
rank and crowding tables, the stopping condition's counter, the random
source's cursor and the loops are all modelled this way. Each method is
proved against a function that specifies it. Chromosomes are values, since
their genes are only written while they are constructed.

Randomness enters through the class `Random`. Its stream is a parameter of
the searches, so every statement about a search holds for every stream of
draws.

## Model

| member | source | states |
|---|---|---|
| `Chromosomes.CountTrue` | src/de/uni_passau/fim/se2/sbse/suite_minimisation/chromosomes/TestSuiteChromosome.java:86-90 | the number of selected tests is at most the number of genes |
| `Chromosomes.CountTruePositive` | src/de/uni_passau/fim/se2/sbse/suite_minimisation/chromosomes/TestSuiteChromosome.java:86-90 | the number of selected tests is positive exactly when some gene is true |
| `Chromosomes.CountTrueAll` | src/de/uni_passau/fim/se2/sbse/suite_minimisation/chromosomes/TestSuiteChromosome.java:86-90 | the number of selected tests equals the length exactly when no gene is false |
| `Chromosomes.CountTrueIsCard` | src/de/uni_passau/fim/se2/sbse/suite_minimisation/chromosomes/TestSuiteChromosome.java:86-90 | the number of selected tests is the size of the set of true positions |
| `Chromosomes.SelectedIndices` | src/de/uni_passau/fim/se2/sbse/suite_minimisation/chromosomes/TestSuiteChromosome.java:73-81 | the selected positions: strictly ascending, each in range and true, every true position present, as many as there are selected tests |
| `Chromosomes.Repaired` | src/de/uni_passau/fim/se2/sbse/suite_minimisation/chromosomes/TestSuiteChromosome.java:96-109 | the repair keeps the length; genes with a true entry are kept unchanged; all-false genes of length >= 1 get exactly the drawn index set; a non-empty result always selects a test |
| `Chromosomes.LengthBoundsSelection` | src/de/uni_passau/fim/se2/sbse/suite_minimisation/chromosomes/TestSuiteChromosome.java:59-61 | `length()` is at least `getNumberOfSelectedTests()`, and equal to it exactly when every test is selected |
| `Chromosomes.Construct` | src/de/uni_passau/fim/se2/sbse/suite_minimisation/chromosomes/TestSuiteChromosome.java:29-40 | the constructor draws the repair index only when the genes are non-empty and all false; the stored genes are then the repaired genes, otherwise the genes themselves; the operators are stored |
| `Chromosomes.New` | src/de/uni_passau/fim/se2/sbse/suite_minimisation/chromosomes/TestSuiteChromosome.java:29-40 | null genes are rejected with a NullPointerException; otherwise the stored genes are the repair of a clone of the caller's array, and a missing operator is replaced by the identity operator |
| `Chromosomes.NewForTest` | src/de/uni_passau/fim/se2/sbse/suite_minimisation/chromosomes/TestSuiteChromosome.java:50-54 | as the main constructor, with identity mutation and identity crossover |
| `Chromosomes.GetGenes` | src/de/uni_passau/fim/se2/sbse/suite_minimisation/chromosomes/TestSuiteChromosome.java:66-68 | a newly allocated array with the chromosome's genes |
| `Chromosomes.GetSelectedTestIndices` | src/de/uni_passau/fim/se2/sbse/suite_minimisation/chromosomes/TestSuiteChromosome.java:73-81 | the loop's list holds exactly the true positions, in strictly ascending order, and its size is the number of selected tests |
| `Chromosomes.GetNumberOfSelectedTests` | src/de/uni_passau/fim/se2/sbse/suite_minimisation/chromosomes/TestSuiteChromosome.java:86-90 | the loop's count equals the number of true genes and the size of the index list, and is positive exactly when a test is selected |
| `Chromosomes.Copy` | src/de/uni_passau/fim/se2/sbse/suite_minimisation/chromosomes/TestSuiteChromosome.java:112-114 | the copy equals the original and keeps its genes and both operators |
| `Chromosomes.EqualsIsEquivalence` | src/de/uni_passau/fim/se2/sbse/suite_minimisation/chromosomes/TestSuiteChromosome.java:117-120 | `equals` is reflexive, symmetric and transitive, and holds exactly when the gene vectors are equal |
| `Chromosomes.ToString` | src/de/uni_passau/fim/se2/sbse/suite_minimisation/chromosomes/TestSuiteChromosome.java:128-133 | the text is `Chromosome(`, then `1` or `0` for each gene in order, then `)` |
| `Chromosomes.ToStringFaithful` | src/de/uni_passau/fim/se2/sbse/suite_minimisation/chromosomes/TestSuiteChromosome.java:128-133 | two chromosomes print the same text exactly when they are equal |
| `BitFlipMutation.FlipMask` | src/de/uni_passau/fim/se2/sbse/suite_minimisation/mutation/BitFlipMutation.java:18-24 | gene i of the result differs from the parent's exactly when draw i is below 1/n; the length is kept |
| `BitFlipMutation.FlipMaskInvolution` | src/de/uni_passau/fim/se2/sbse/suite_minimisation/mutation/BitFlipMutation.java:20-24 | flipping with the same draws twice gives back the parent's genes |
| `BitFlipMutation.NoFlipIsCopy` | src/de/uni_passau/fim/se2/sbse/suite_minimisation/mutation/BitFlipMutation.java:20-30 | when no draw is below 1/n, the child's genes equal the parent's, because the repair leaves a suite with a selected test unchanged |
| `BitFlipMutation.Apply` | src/de/uni_passau/fim/se2/sbse/suite_minimisation/mutation/BitFlipMutation.java:14-31 | the child's genes are the repaired flip of the parent's genes; the child has the parent's length, selects a test when non-empty, and keeps the parent's operators |
| `BitFlipMutation.ApplyFrom` | src/de/uni_passau/fim/se2/sbse/suite_minimisation/mutation/BitFlipMutation.java:14-31 | as `Apply`, with the flip draws being the next n draws of the random source and the repair index drawn after them only when needed; the source advances by n, plus one for a repair |
| `SinglePointCrossover.Splice` | src/de/uni_passau/fim/se2/sbse/suite_minimisation/crossover/SinglePointCrossover.java:26-34 | position i of a child comes from the first parent before the cut and from the second parent from the cut on |
| `SinglePointCrossover.SplicePermutesPositions` | src/de/uni_passau/fim/se2/sbse/suite_minimisation/crossover/SinglePointCrossover.java:26-34 | at every position the two children hold the two parents' genes, in one order or the other |
| `SinglePointCrossover.SpliceKeepsCount` | src/de/uni_passau/fim/se2/sbse/suite_minimisation/crossover/SinglePointCrossover.java:26-34 | before repair the two children together select as many tests as the two parents |
| `SinglePointCrossover.CutZeroSwaps` | src/de/uni_passau/fim/se2/sbse/suite_minimisation/crossover/SinglePointCrossover.java:27-33 | with the cut at 0 the children are the parents swapped |
| `SinglePointCrossover.Apply` | src/de/uni_passau/fim/se2/sbse/suite_minimisation/crossover/SinglePointCrossover.java:13-40 | an empty first parent fails as `nextInt(0)` does; a second parent shorter than the first fails with an index out of bounds; otherwise both children have the first parent's length, are the repaired splices, select a test, and take their own parent's operators |
| `SinglePointCrossover.ApplyFrom` | src/de/uni_passau/fim/se2/sbse/suite_minimisation/crossover/SinglePointCrossover.java:13-40 | the cut is the next draw; an empty first parent fails without drawing, a too-short second parent fails after the cut is drawn; otherwise the first child is the splice repaired with the following draw if it needs one, the second child the other splice repaired with the draw after that, each child keeps its parent's operators, and the source advances by one plus one per repair |
| `ChromosomeGenerator.TargetSize` | src/de/uni_passau/fim/se2/sbse/suite_minimisation/chromosomes/TestSuiteChromosomeGenerator.java:31-32 | the biased size 1 + floor(r * r * (n - 1)) lies in [1, n], and below n when n >= 2 |
| `ChromosomeGenerator.ScaledFloorBounds` | src/de/uni_passau/fim/se2/sbse/suite_minimisation/chromosomes/TestSuiteChromosomeGenerator.java:32 | floor(r * r * m) lies in [0, m) for m >= 1 and is 0 for m = 0 |
| `ChromosomeGenerator.PartialShuffleSelect` | src/de/uni_passau/fim/se2/sbse/suite_minimisation/chromosomes/TestSuiteChromosomeGenerator.java:35-44 | with every swap partner drawn in [i, n), the k swaps choose k distinct tests and exactly their genes are true |
| `ChromosomeGenerator.Get` | src/de/uni_passau/fim/se2/sbse/suite_minimisation/chromosomes/TestSuiteChromosomeGenerator.java:26-47 | for n >= 1: n genes, exactly the biased number of them selected, never empty, with the generator's operators; for n = 0: a zero draw makes `nextInt(0)` fail, any other draw gives an empty chromosome |
| `ChromosomeGenerator.DrawOffsets` | src/de/uni_passau/fim/se2/sbse/suite_minimisation/chromosomes/TestSuiteChromosomeGenerator.java:38-39 | the k swap draws, the i-th one below n - i, consuming k draws |
| `ChromosomeGenerator.GetFrom` | src/de/uni_passau/fim/se2/sbse/suite_minimisation/chromosomes/TestSuiteChromosomeGenerator.java:26-47 | `get()` with its draws taken from the random source: for n >= 1 a suite of n genes with exactly the biased number of tests selected for the first draw, never empty, carrying the generator's operators, after 1 + that many draws; for n = 0 one draw, and `nextInt(0)` fails exactly when it is 0 |
| `FitnessFunctions.KindsExclusive` | src/de/uni_passau/fim/se2/sbse/suite_minimisation/fitness_functions/FitnessFunction.java:74-76 | a fitness function is maximizing exactly when it is not minimizing |
| `FitnessFunctions.DoubleCompare` | src/de/uni_passau/fim/se2/sbse/suite_minimisation/fitness_functions/FitnessFunction.java:109-112 | `Double.compare`: negative, zero or positive exactly when the first value is smaller, equal or larger |
| `FitnessFunctions.Compare` | src/de/uni_passau/fim/se2/sbse/suite_minimisation/fitness_functions/FitnessFunction.java:109-112 | the comparator is positive exactly when the first chromosome has the better value (larger when maximizing, smaller when minimizing), negative when the second has, zero on equal values |
| `FitnessFunctions.CompareAntisymmetric` | src/de/uni_passau/fim/se2/sbse/suite_minimisation/fitness_functions/FitnessFunction.java:109-112 | swapping the two chromosomes negates the comparison |
| `FitnessFunctions.Best` | src/de/uni_passau/fim/se2/sbse/suite_minimisation/fitness_functions/FitnessFunction.java:133-137 | `best()` as written returns one of its arguments, the first on equal values, and always one with the larger value, whatever the kind |
| `FitnessFunctions.BestMaximizing` | src/de/uni_passau/fim/se2/sbse/suite_minimisation/fitness_functions/FitnessFunction.java:135-136 | for a maximizing function `best()` returns the second argument exactly when its value is larger |
| `FitnessFunctions.BestMinimizingPicksWorse` | src/de/uni_passau/fim/se2/sbse/suite_minimisation/fitness_functions/FitnessFunction.java:133-135 | for the minimizing identity function, `best(1.0, 2.0)` is 2.0 although 1.0 is the better value |
| `FitnessFunctions.BestIntended` | src/de/uni_passau/fim/se2/sbse/suite_minimisation/fitness_functions/FitnessFunction.java:133-137 | the corrected `best()`: the argument with the better value for the function's kind, the first on ties, never worse than either argument |
| `FitnessFunctions.BestIntendedAgreesWhenMaximizing` | src/de/uni_passau/fim/se2/sbse/suite_minimisation/fitness_functions/FitnessFunction.java:135-136 | for maximizing functions the corrected `best()` equals the one as written |
| `FitnessFunctions.BestIntendedMinimizing` | src/de/uni_passau/fim/se2/sbse/suite_minimisation/fitness_functions/FitnessFunction.java:133-135 | for the minimizing identity function the corrected `best(1.0, 2.0)` is 1.0 |
| `FitnessFunctions.AndThenAsDouble` | src/de/uni_passau/fim/se2/sbse/suite_minimisation/fitness_functions/FitnessFunction.java:51-56 | the composed function maps c to after(f(c)) and keeps f's kind |
| `FitnessFunctions.AndThenAssociative` | src/de/uni_passau/fim/se2/sbse/suite_minimisation/fitness_functions/FitnessFunction.java:51-56 | composing twice gives the same values and kind as composing once with the composed operator |
| `FitnessFunctions.AndThenKeepsOrder` | src/de/uni_passau/fim/se2/sbse/suite_minimisation/fitness_functions/FitnessFunction.java:51-56 | composing with a strictly increasing operator leaves the comparator unchanged |
| `StoppingConditions.Wrap` | src/de/uni_passau/fim/se2/sbse/suite_minimisation/stopping_conditions/MaxFitnessEvaluations.java:66-68 | Java `int` arithmetic: the result is a 32-bit value congruent to the input modulo 2^32, equal to it when it already fits |
| `StoppingConditions.WrapStep` | src/de/uni_passau/fim/se2/sbse/suite_minimisation/stopping_conditions/MaxFitnessEvaluations.java:66-68 | wrapping after every step is the same as wrapping once at the end |
| `StoppingConditions.MaxFitnessEvaluations.constructor` | src/de/uni_passau/fim/se2/sbse/suite_minimisation/stopping_conditions/MaxFitnessEvaluations.java:41-47 | a positive budget is stored and the counter starts at `Integer.MAX_VALUE` |
| `StoppingConditions.Of` | src/de/uni_passau/fim/se2/sbse/suite_minimisation/stopping_conditions/MaxFitnessEvaluations.java:41-58 | a non-positive budget is rejected with an IllegalArgumentException; otherwise a new condition with that budget and the counter at `Integer.MAX_VALUE` |
| `StoppingConditions.MaxFitnessEvaluations.NotifySearchStarted` | src/de/uni_passau/fim/se2/sbse/suite_minimisation/stopping_conditions/MaxFitnessEvaluations.java:61-63 | the counter is reset to 0 |
| `StoppingConditions.MaxFitnessEvaluations.NotifyFitnessEvaluation` | src/de/uni_passau/fim/se2/sbse/suite_minimisation/stopping_conditions/MaxFitnessEvaluations.java:66-68 | the counter grows by one, with 32-bit wrap-around |
| `StoppingConditions.MaxFitnessEvaluations.NotifyFitnessEvaluations` | src/de/uni_passau/fim/se2/sbse/suite_minimisation/stopping_conditions/MaxFitnessEvaluations.java:71-77 | a negative count is rejected and changes nothing; otherwise the counter grows by the count, with wrap-around |
| `StoppingConditions.MaxFitnessEvaluations.DefaultNotifyFitnessEvaluations` | src/de/uni_passau/fim/se2/sbse/suite_minimisation/stopping_conditions/StoppingCondition.java:32-40 | the interface's loop rejects a negative count before any change and otherwise has the same effect as the override: the count added to the counter |
| `StoppingConditions.MaxFitnessEvaluations.GetProgress` | src/de/uni_passau/fim/se2/sbse/suite_minimisation/stopping_conditions/MaxFitnessEvaluations.java:85-87 | progress times budget is the counter; progress is in [0, 1] while 0 <= counter <= budget; progress is at least 1 exactly when the search must stop |
| `StoppingConditions.ProgressBounds` | src/de/uni_passau/fim/se2/sbse/suite_minimisation/stopping_conditions/MaxFitnessEvaluations.java:80-87 | counter / budget is at least 1 exactly when counter >= budget, and lies in [0, 1] for counters in [0, budget] |
| `StoppingConditions.BudgetOfThree` | src/de/uni_passau/fim/se2/sbse/suite_minimisation/stopping_conditions/MaxFitnessEvaluations.java:41-82 | with budget 3: the search must stop before it starts, not at the start (progress 0), not after two evaluations, and must after the third |
| `StoppingConditions.NotifyBeforeStart` | src/de/uni_passau/fim/se2/sbse/suite_minimisation/stopping_conditions/MaxFitnessEvaluations.java:46 | one notification before the start wraps the counter to `Integer.MIN_VALUE`, after which the search no longer must stop |
| `Selection.DecideFacts` | src/de/uni_passau/fim/se2/sbse/suite_minimisation/selection/BinaryTournamentSelection.java:75 | the winner is one of the two candidates, the first one on a tie, and under an antisymmetric comparator the other candidate never compares above it |
| `Selection.Apply` | src/de/uni_passau/fim/se2/sbse/suite_minimisation/selection/BinaryTournamentSelection.java:47-77 | an empty population is rejected without drawing; one member is returned without drawing; otherwise the first draw gives i1, the redraws repeat i1 until a different i2, and the result is the comparator's choice between those members, so it is a tournament winner of two different positions |
| `Variation.Mutate` | src/de/uni_passau/fim/se2/sbse/suite_minimisation/mutation/BitFlipMutation.java:14-31 | the chromosome's mutation: the identity mutation returns an equal copy without drawing; bit-flip mutation gives the repaired flip of the genes with the next n draws as coins; the child keeps the length and the operators |
| `Variation.Crossover` | src/de/uni_passau/fim/se2/sbse/suite_minimisation/crossover/Crossover.java:30-35 | the identity crossover returns copies of both parents without drawing; single-point crossover fails or succeeds as `SinglePointCrossover.apply` does and then gives the repaired splices at the drawn cut; each child keeps its parent's operators |
| `Randomness.Scale` | src/de/uni_passau/fim/se2/sbse/suite_minimisation/selection/BinaryTournamentSelection.java:63 | `nextInt(bound)` from a uniform draw u: the integer k in [0, bound) with k <= u * bound < k + 1 |
| `Randomness.Random.NextDouble` | src/de/uni_passau/fim/se2/sbse/suite_minimisation/chromosomes/TestSuiteChromosomeGenerator.java:31 | the next draw of the source; the source advances by one |
| `Randomness.Random.NextInt` | src/de/uni_passau/fim/se2/sbse/suite_minimisation/chromosomes/TestSuiteChromosomeGenerator.java:39 | the next draw scaled to [0, bound); the source advances by one |
| `Sorting.SortBy` | src/de/uni_passau/fim/se2/sbse/suite_minimisation/utils/Utils.java:81 | the sort keeps the length and the multiset of its input |
| `Sorting.SortByIsSorted` | src/de/uni_passau/fim/se2/sbse/suite_minimisation/utils/Utils.java:81 | the result is in ascending order of the key |
| `Sorting.SortByOfSorted` | src/de/uni_passau/fim/se2/sbse/suite_minimisation/utils/Utils.java:81 | the sort is stable: an input already in key order is returned unchanged |
| `Pareto.DominatesIsStrictOrder` | src/de/uni_passau/fim/se2/sbse/suite_minimisation/algorithms/NSGA2.java:129-139 | dominance is irreflexive, asymmetric and transitive |
| `Pareto.ExistsUndominated` | src/de/uni_passau/fim/se2/sbse/suite_minimisation/algorithms/NSGA2.java:149-165 | every non-empty set of members has a member no other member of the set dominates |
| `Pareto.FirstFront` | src/de/uni_passau/fim/se2/sbse/suite_minimisation/algorithms/NSGA2.java:149-165 | the first front is exactly the set of members no member dominates |
| `Pareto.LayersDisjoint` | src/de/uni_passau/fim/se2/sbse/suite_minimisation/algorithms/NSGA2.java:167-178 | two different fronts have no member in common |
| `Pareto.LayerNonEmpty` | src/de/uni_passau/fim/se2/sbse/suite_minimisation/algorithms/NSGA2.java:167-178 | while some member has no front yet, the next front is not empty |
| `Pareto.InSomeLayer` | src/de/uni_passau/fim/se2/sbse/suite_minimisation/algorithms/NSGA2.java:167-178 | every member assigned to the first k fronts is in one of them |
| `Pareto.DominatedByPreviousFront` | src/de/uni_passau/fim/se2/sbse/suite_minimisation/algorithms/NSGA2.java:167-178 | each member of front k + 1 is dominated by some member of front k |
| `Pareto.NotDominatedByLaterFronts` | src/de/uni_passau/fim/se2/sbse/suite_minimisation/algorithms/NSGA2.java:167-178 | no member of front k or of a later front dominates a member of front k |
| `NondominatedSort.DominanceOf` | src/de/uni_passau/fim/se2/sbse/suite_minimisation/algorithms/NSGA2.java:153-160 | the inner loop: S(p) is exactly the members p dominates, without repeats, and n(p) is the number of members that dominate p |
| `NondominatedSort.FirstPass` | src/de/uni_passau/fim/se2/sbse/suite_minimisation/algorithms/NSGA2.java:149-165 | the first loop fills S for every member, sets every counter to its number of dominators, and collects exactly the first front |
| `NondominatedSort.Release` | src/de/uni_passau/fim/se2/sbse/suite_minimisation/algorithms/NSGA2.java:171-174 | the counters of the members p dominates drop by one, and `next` gains exactly the members whose counter reaches zero |
| `NondominatedSort.PendingZero` | src/de/uni_passau/fim/se2/sbse/suite_minimisation/algorithms/NSGA2.java:172-173 | a counter is zero exactly when every dominator of the member has been processed |
| `NondominatedSort.NextFrontByDominators` | src/de/uni_passau/fim/se2/sbse/suite_minimisation/algorithms/NSGA2.java:167-178 | a member is in front k + 1 exactly when all its dominators are in fronts up to k and some is in front k |
| `NondominatedSort.ReleaseMember` | src/de/uni_passau/fim/se2/sbse/suite_minimisation/algorithms/NSGA2.java:170-174 | after releasing p, every counter counts the dominators not yet processed |
| `NondominatedSort.ReleaseFront` | src/de/uni_passau/fim/se2/sbse/suite_minimisation/algorithms/NSGA2.java:169-175 | releasing all of front i leaves exactly front i + 1 in `next` |
| `NondominatedSort.NextRound` | src/de/uni_passau/fim/se2/sbse/suite_minimisation/algorithms/NSGA2.java:168-178 | one round of the outer loop produces front i + 1 and strictly increases the number of members with a front |
| `NondominatedSort.Rounds` | src/de/uni_passau/fim/se2/sbse/suite_minimisation/algorithms/NSGA2.java:167-178 | the loop's fronts are the fronts 0, 1, ... in order, none of them empty, and it stops when the next front would be empty |
| `NondominatedSort.LayeredPartition` | src/de/uni_passau/fim/se2/sbse/suite_minimisation/algorithms/NSGA2.java:142-181 | fronts that are the layers in order and cover every member partition the population |
| `NondominatedSort.FastNonDominatedSort` | src/de/uni_passau/fim/se2/sbse/suite_minimisation/algorithms/NSGA2.java:142-181 | an empty population gives one empty front; otherwise the fronts are non-empty, are the Pareto fronts in order, and put every member in exactly one front |
| `Crowding.Plus` | src/de/uni_passau/fim/se2/sbse/suite_minimisation/algorithms/NSGA2.java:218 | a sum of distances is infinite exactly when a summand is |
| `Crowding.PlusFacts` | src/de/uni_passau/fim/se2/sbse/suite_minimisation/algorithms/NSGA2.java:218 | a finite zero is neutral and the sum of distances is commutative |
| `Crowding.SortedAlong` | src/de/uni_passau/fim/se2/sbse/suite_minimisation/algorithms/NSGA2.java:206 | members sorted by an objective have ascending values of it |
| `Crowding.ContributionBounds` | src/de/uni_passau/fim/se2/sbse/suite_minimisation/algorithms/NSGA2.java:207-219 | a member's contribution from one objective is infinite exactly at the two ends of the sorted front, and otherwise lies in [0, 1] |
| `Crowding.BySize` | src/de/uni_passau/fim/se2/sbse/suite_minimisation/algorithms/NSGA2.java:206 | the front sorted by size is a permutation of the front |
| `Crowding.ByCoverage` | src/de/uni_passau/fim/se2/sbse/suite_minimisation/algorithms/NSGA2.java:223 | the front sorted by coverage, after the size sort, is a permutation of the front |
| `Crowding.CrowdingOf` | src/de/uni_passau/fim/se2/sbse/suite_minimisation/algorithms/NSGA2.java:195-238 | the distances computed for a front are defined exactly for its members |
| `Crowding.SmallFrontInfinite` | src/de/uni_passau/fim/se2/sbse/suite_minimisation/algorithms/NSGA2.java:199-203 | every member of a front of at most two members is infinitely far |
| `Crowding.ExtremesInfinite` | src/de/uni_passau/fim/se2/sbse/suite_minimisation/algorithms/NSGA2.java:205-225 | the first and the last member of either sort are infinitely far |
| `Crowding.FiniteDistanceBounds` | src/de/uni_passau/fim/se2/sbse/suite_minimisation/algorithms/NSGA2.java:214-236 | every finite distance lies in [0, 2] |
| `Survival.IntCompare` | src/de/uni_passau/fim/se2/sbse/suite_minimisation/algorithms/NSGA2.java:71 | `Integer.compare`: negative, zero or positive exactly when the first is smaller, equal or larger |
| `Survival.DistanceCompareFacts` | src/de/uni_passau/fim/se2/sbse/suite_minimisation/algorithms/NSGA2.java:249-252 | `Double.compare` on distances, with infinity above every finite value: antisymmetric, non-negative exactly when the first is at least the second, zero exactly on equal distances |
| `Survival.RankCrowdingCompareFacts` | src/de/uni_passau/fim/se2/sbse/suite_minimisation/algorithms/NSGA2.java:263-272 | `nsga2Comparator()` is antisymmetric; the lower rank wins; at equal rank the larger crowding wins; a ranked member beats one without a rank, which defaults to `Integer.MAX_VALUE` |
| `Survival.DescendingOrder` | src/de/uni_passau/fim/se2/sbse/suite_minimisation/algorithms/NSGA2.java:249-252 | a front sorted by that key has non-increasing crowding distances |
| `Survival.FlattenMembers` | src/de/uni_passau/fim/se2/sbse/suite_minimisation/algorithms/NSGA2.java:244-246 | a member is in the concatenation of the fronts exactly when it is in some front |
| `Survival.FlattenDistinct` | src/de/uni_passau/fim/se2/sbse/suite_minimisation/algorithms/NSGA2.java:244-246 | disjoint fronts without repeats concatenate without repeats |
| `Survival.PermutedFronts` | src/de/uni_passau/fim/se2/sbse/suite_minimisation/algorithms/NSGA2.java:205-223 | the fronts reordered by the crowding sorts still partition the population |
| `Survival.FlattenOfPartition` | src/de/uni_passau/fim/se2/sbse/suite_minimisation/algorithms/NSGA2.java:100-104 | the fronts of a partition together hold each member of the combined population once |
| `Survival.SurvivorsLength` | src/de/uni_passau/fim/se2/sbse/suite_minimisation/algorithms/NSGA2.java:241-260 | the next population has min(N, number of members) members |
| `Survival.SurvivorsAll` | src/de/uni_passau/fim/se2/sbse/suite_minimisation/algorithms/NSGA2.java:244-246 | when all fronts fit, the next population is their concatenation |
| `Survival.SurvivorsMembers` | src/de/uni_passau/fim/se2/sbse/suite_minimisation/algorithms/NSGA2.java:241-260 | every survivor comes from one of the fronts |
| `Survival.SurvivorsDistinct` | src/de/uni_passau/fim/se2/sbse/suite_minimisation/algorithms/NSGA2.java:241-260 | no member survives twice |
| `Survival.SurvivorsKeepWholeFronts` | src/de/uni_passau/fim/se2/sbse/suite_minimisation/algorithms/NSGA2.java:244-246 | the leading fronts that fit come first in the next population, whole and in order |
| `Survival.TruncationByCrowding` | src/de/uni_passau/fim/se2/sbse/suite_minimisation/algorithms/NSGA2.java:248-254 | in the front that does not fit, every chosen member is at least as far from its neighbours as every left-out member |
| `Survival.RankIsFrontIndex` | src/de/uni_passau/fim/se2/sbse/suite_minimisation/algorithms/NSGA2.java:188-191 | the rank table gives each member of front k the rank k |
| `Survival.CrowdingIsFrontDistance` | src/de/uni_passau/fim/se2/sbse/suite_minimisation/algorithms/NSGA2.java:188-192 | the crowding table gives each member its distance within its own front |
| `Nsga2.PassStart` | src/de/uni_passau/fim/se2/sbse/suite_minimisation/algorithms/NSGA2.java:207-208 | the two ends of the sorted front become infinite and nothing else changes |
| `Nsga2.PassStep` | src/de/uni_passau/fim/se2/sbse/suite_minimisation/algorithms/NSGA2.java:215-219 | one interior step adds the member's contribution and changes no other entry |
| `Nsga2.PassTable` | src/de/uni_passau/fim/se2/sbse/suite_minimisation/algorithms/NSGA2.java:214-220 | the table after the first i interior steps keeps the keys of the table it started from |
| `Nsga2.PassTablePassed` | src/de/uni_passau/fim/se2/sbse/suite_minimisation/algorithms/NSGA2.java:214-220 | after the first i steps the first i members hold their contributions and members outside the front are unchanged |
| `Nsga2.FlatPassTable` | src/de/uni_passau/fim/se2/sbse/suite_minimisation/algorithms/NSGA2.java:214 | with a range that is not positive, the interior steps change nothing |
| `Nsga2.SmallFrontResult` | src/de/uni_passau/fim/se2/sbse/suite_minimisation/algorithms/NSGA2.java:199-203 | zeroing and then setting infinity for a small front gives its crowding distances |
| `Nsga2.MemberAfterPasses` | src/de/uni_passau/fim/se2/sbse/suite_minimisation/algorithms/NSGA2.java:205-237 | after both passes a member of a large front holds its crowding distance |
| `Nsga2.TwoPasses` | src/de/uni_passau/fim/se2/sbse/suite_minimisation/algorithms/NSGA2.java:205-237 | zeroing a front and running both passes adds exactly its crowding distances to the table |
| `Nsga2.CrowdingOrder` | src/de/uni_passau/fim/se2/sbse/suite_minimisation/algorithms/NSGA2.java:206-223 | the order the two in-place sorts leave the front in is a permutation of it |
| `Nsga2.CrowdingPass` | src/de/uni_passau/fim/se2/sbse/suite_minimisation/algorithms/NSGA2.java:205-220 | one objective's pass: both ends infinite, each interior member gains its contribution, members outside the front unchanged |
| `Nsga2.InteriorPass` | src/de/uni_passau/fim/se2/sbse/suite_minimisation/algorithms/NSGA2.java:214-220 | the interior loop computes the table of all interior steps |
| `Nsga2.UndominatedIsFirstFront` | src/de/uni_passau/fim/se2/sbse/suite_minimisation/algorithms/NSGA2.java:111-112 | a member is undominated in the population exactly when it is in the first front |
| `Nsga2.EveryMemberRanked` | src/de/uni_passau/fim/se2/sbse/suite_minimisation/algorithms/NSGA2.java:68-76 | after ranking, every member has a rank and a distance, so the comparator of the generational loop is defined on every pair |
| `Nsga2.ComparatorsAgree` | src/de/uni_passau/fim/se2/sbse/suite_minimisation/algorithms/NSGA2.java:263-272 | on ranked members the comparator of the generational loop equals `nsga2Comparator()` |
| `Nsga2.TablesCoverPopulation` | src/de/uni_passau/fim/se2/sbse/suite_minimisation/algorithms/NSGA2.java:64-65 | after ranking the population's fronts, every member is in both tables |
| `Nsga2.Elitism` | src/de/uni_passau/fim/se2/sbse/suite_minimisation/algorithms/NSGA2.java:241-260 | when the first front fits in the next population, all of its members survive |
| `Nsga2.SurvivorFacts` | src/de/uni_passau/fim/se2/sbse/suite_minimisation/algorithms/NSGA2.java:104-107 | the survivors are min(N, number of members) distinct positions of the combined population, and the first front survives when it fits |
| `Nsga2.Nsga2.constructor` | src/de/uni_passau/fim/se2/sbse/suite_minimisation/algorithms/NSGA2.java:32-46 | the parameters are stored and both tables start empty |
| `Nsga2.Nsga2.SetCrowding` | src/de/uni_passau/fim/se2/sbse/suite_minimisation/algorithms/NSGA2.java:199 | every member of the front gets the same distance; the rank table is unchanged |
| `Nsga2.Nsga2.SetRank` | src/de/uni_passau/fim/se2/sbse/suite_minimisation/algorithms/NSGA2.java:190 | every member of the front gets rank k; the crowding table is unchanged |
| `Nsga2.Nsga2.AccumulatePass` | src/de/uni_passau/fim/se2/sbse/suite_minimisation/algorithms/NSGA2.java:205-220 | one pass over the front sorted by one objective: both ends infinite, interior members gain their contribution, nothing else changes |
| `Nsga2.Nsga2.ComputeCrowdingDistance` | src/de/uni_passau/fim/se2/sbse/suite_minimisation/algorithms/NSGA2.java:195-238 | the front's crowding distances are written into the table, and the front ends up in the order of the two in-place sorts |
| `Nsga2.Nsga2.AssignRankAndCrowding` | src/de/uni_passau/fim/se2/sbse/suite_minimisation/algorithms/NSGA2.java:184-193 | after clearing, each member of front k has rank k and its distance within front k |
| `Nsga2.Nsga2.SelectNextPopulation` | src/de/uni_passau/fim/se2/sbse/suite_minimisation/algorithms/NSGA2.java:241-260 | whole fronts while they fit, then the first front that does not fit sorted by descending crowding fills the remaining room |
| `Nsga2.Nsga2.Evaluate` | src/de/uni_passau/fim/se2/sbse/suite_minimisation/algorithms/NSGA2.java:121-126 | one evaluation is counted per chromosome |
| `Nsga2.Nsga2.InitialPopulation` | src/de/uni_passau/fim/se2/sbse/suite_minimisation/algorithms/NSGA2.java:53-58 | min(N, budget) generated members, one evaluation each, all of the generator's length |
| `Nsga2.Nsga2.Breed` | src/de/uni_passau/fim/se2/sbse/suite_minimisation/algorithms/NSGA2.java:84-89 | the two parents are tournament winners of the population; the children are the first parent's crossover of the two parents at the drawn cut (copies, or repaired splices); each offspring is its child mutated with the drawn coins (a copy, or the repaired flip) and keeps the operators; both have the population's length |
| `Nsga2.Nsga2.Offspring` | src/de/uni_passau/fim/se2/sbse/suite_minimisation/algorithms/NSGA2.java:82-97 | at most N offspring, one evaluation each; the list is full or the budget is spent, and the second child may overshoot the budget by one |
| `Nsga2.Nsga2.RankForSelection` | src/de/uni_passau/fim/se2/sbse/suite_minimisation/algorithms/NSGA2.java:64-78 | after ranking, every member has a rank and a distance, and the tournament's comparator agrees with `nsga2Comparator()` |
| `Nsga2.Nsga2.NextGeneration` | src/de/uni_passau/fim/se2/sbse/suite_minimisation/algorithms/NSGA2.java:100-107 | the next population is min(N, parents + offspring) distinct members of the combined list, keeping the first front when it fits |
| `Nsga2.Nsga2.Generation` | src/de/uni_passau/fim/se2/sbse/suite_minimisation/algorithms/NSGA2.java:61-108 | one generation spends at least one evaluation and keeps a population of N members of the generator's length |
| `Nsga2.Nsga2.FirstFront` | src/de/uni_passau/fim/se2/sbse/suite_minimisation/algorithms/NSGA2.java:111-112 | the result is the first front of the final population, that is, exactly its undominated members |
| `Nsga2.Nsga2.FindSolution` | src/de/uni_passau/fim/se2/sbse/suite_minimisation/algorithms/NSGA2.java:49-113 | the budget is spent (the counter ends at the budget or one above it); the final population has min(N, budget) members; the result is exactly its undominated members |
| `RandomSearch.DominatedBy` | src/de/uni_passau/fim/se2/sbse/suite_minimisation/algorithms/RandomSearch.java:195-197 | the archive members the candidate dominates |
| `RandomSearch.RemoveAll` | src/de/uni_passau/fim/se2/sbse/suite_minimisation/algorithms/RandomSearch.java:201 | `removeAll`: keeps exactly the members with no equal chromosome in the removal list, and never more members than it was given |
| `RandomSearch.RemoveAllConcat` | src/de/uni_passau/fim/se2/sbse/suite_minimisation/algorithms/RandomSearch.java:201 | `removeAll` filters a list part by part, so the kept members stay in their original order |
| `RandomSearch.RemoveAllSingle` | src/de/uni_passau/fim/se2/sbse/suite_minimisation/algorithms/RandomSearch.java:201 | a single member is kept exactly when nothing in the removal list equals it |
| `RandomSearch.Inserted` | src/de/uni_passau/fim/se2/sbse/suite_minimisation/algorithms/RandomSearch.java:187-203 | a dominated candidate leaves the archive unchanged; otherwise the candidate is appended last, after the archive with exactly the members equal to one it dominates removed (in order, by `RemoveAllConcat`) |
| `RandomSearch.InsertPreserves` | src/de/uni_passau/fim/se2/sbse/suite_minimisation/algorithms/RandomSearch.java:187-203 | insertion keeps the archive invariant: its members are evaluated suites, mutually non-dominated, and every evaluated suite is in it or dominated by a member |
| `RandomSearch.ArchiveIsParetoFront` | src/de/uni_passau/fim/se2/sbse/suite_minimisation/algorithms/RandomSearch.java:187-203 | when the objectives depend only on the genes, the archive holds exactly the evaluated suites no evaluated suite dominates |
| `RandomSearch.SuiteOfSelects` | src/de/uni_passau/fim/se2/sbse/suite_minimisation/algorithms/RandomSearch.java:111 | a suite built from distinct chosen tests selects exactly as many tests as were chosen |
| `RandomSearch.SuiteOfStep` | src/de/uni_passau/fim/se2/sbse/suite_minimisation/algorithms/RandomSearch.java:111 | setting `genes[t] = true` gives the suite of the chosen tests extended by t |
| `RandomSearch.Gain` | src/de/uni_passau/fim/se2/sbse/suite_minimisation/algorithms/RandomSearch.java:99-102 | a test's gain is at most the number of lines |
| `RandomSearch.GainZero` | src/de/uni_passau/fim/se2/sbse/suite_minimisation/algorithms/RandomSearch.java:109 | the gain is zero exactly when the test covers no uncovered line |
| `RandomSearch.UnionCount` | src/de/uni_passau/fim/se2/sbse/suite_minimisation/algorithms/RandomSearch.java:99-114 | OR-ing a test into the covered lines adds exactly its gain to the number of covered lines |
| `RandomSearch.CoveredByStep` | src/de/uni_passau/fim/se2/sbse/suite_minimisation/algorithms/RandomSearch.java:112-114 | OR-ing the tests into `covered` one at a time gives the lines some chosen test covers |
| `RandomSearch.BestUpTo` | src/de/uni_passau/fim/se2/sbse/suite_minimisation/algorithms/RandomSearch.java:93-107 | the scan returns the first unselected test with the largest positive gain, or -1 with gain 0 when no test gains a line |
| `RandomSearch.GreedyRun` | src/de/uni_passau/fim/se2/sbse/suite_minimisation/algorithms/RandomSearch.java:92-125 | the greedy run adds distinct tests that were not selected before |
| `RandomSearch.GreedyRunCompletes` | src/de/uni_passau/fim/se2/sbse/suite_minimisation/algorithms/RandomSearch.java:92-125 | every line some unselected test covers is covered by the end of the greedy run |
| `RandomSearch.GreedyReachesFullCoverage` | src/de/uni_passau/fim/se2/sbse/suite_minimisation/algorithms/RandomSearch.java:92-125 | from nothing, the greedy run covers every line any test covers |
| `RandomSearch.GreedyRunLength` | src/de/uni_passau/fim/se2/sbse/suite_minimisation/algorithms/RandomSearch.java:92-125 | the run is no longer than the number of unselected tests, nor than the number of uncovered lines, since every step gains a line |
| `RandomSearch.GreedyRunAtMostMin` | src/de/uni_passau/fim/se2/sbse/suite_minimisation/algorithms/RandomSearch.java:88-126 | from nothing selected, `addGreedyPrefixes` evaluates at most min(T, L) prefixes |
| `RandomSearch.TopKByCoverage` | src/de/uni_passau/fim/se2/sbse/suite_minimisation/algorithms/RandomSearch.java:128-147 | the corrected selection: K tests of the largest coverage |
| `RandomSearch.ByDescendingCoverage` | src/de/uni_passau/fim/se2/sbse/suite_minimisation/algorithms/RandomSearch.java:143-144 | all tests sorted by descending coverage: each test once, coverage non-increasing |
| `RandomSearch.TopKByCoverageIsTopK` | src/de/uni_passau/fim/se2/sbse/suite_minimisation/algorithms/RandomSearch.java:128-147 | the corrected selection is K distinct tests and none left out covers more than one chosen |
| `RandomSearch.SortPositions` | src/de/uni_passau/fim/se2/sbse/suite_minimisation/algorithms/RandomSearch.java:144 | sorting the indices 0 .. n-1 leaves them as they are |
| `RandomSearch.TopKAsWrittenMissesBest` | src/de/uni_passau/fim/se2/sbse/suite_minimisation/algorithms/RandomSearch.java:128-147 | with 21 tests of which only the last covers a line, the first 20 indices are not a top-20 by coverage, while the corrected selection is |
| `RandomSearch.Everything` | src/de/uni_passau/fim/se2/sbse/suite_minimisation/algorithms/RandomSearch.java:57-58 | the suite selecting every test |
| `RandomSearch.PrefixesAt` | src/de/uni_passau/fim/se2/sbse/suite_minimisation/algorithms/RandomSearch.java:111-117 | the k-th evaluated greedy suite selects exactly the first k + 1 tests of the run |
| `RandomSearch.SingletonSuite` | src/de/uni_passau/fim/se2/sbse/suite_minimisation/algorithms/RandomSearch.java:73-74 | the single-test suite of t selects exactly t |
| `RandomSearch.SingletonsAt` | src/de/uni_passau/fim/se2/sbse/suite_minimisation/algorithms/RandomSearch.java:71-76 | the j-th evaluated singleton suite selects exactly the j-th best test |
| `RandomSearch.SingletonCount` | src/de/uni_passau/fim/se2/sbse/suite_minimisation/algorithms/RandomSearch.java:69 | K = min(20, number of tests) |
| `RandomSearch.PhasesInOrder` | src/de/uni_passau/fim/se2/sbse/suite_minimisation/algorithms/RandomSearch.java:55-77 | the suite of all tests, the greedy prefixes and the singletons follow each other in this order, each phase complete unless the budget ran out |
| `RandomSearch.RandomSearch.constructor` | src/de/uni_passau/fim/se2/sbse/suite_minimisation/algorithms/RandomSearch.java:28-45 | the parameters are stored |
| `RandomSearch.RandomSearch.Scan` | src/de/uni_passau/fim/se2/sbse/suite_minimisation/algorithms/RandomSearch.java:187-198 | the scan finds a dominating member exactly when one exists, and otherwise collects exactly the members the candidate dominates |
| `RandomSearch.RandomSearch.EvaluateAndInsert` | src/de/uni_passau/fim/se2/sbse/suite_minimisation/algorithms/RandomSearch.java:178-204 | one evaluation is counted, and the archive becomes the insertion of the candidate, keeping the archive invariant |
| `RandomSearch.RandomSearch.GainOf` | src/de/uni_passau/fim/se2/sbse/suite_minimisation/algorithms/RandomSearch.java:99-102 | the loop counts the test's gain over the covered lines |
| `RandomSearch.RandomSearch.ChooseBest` | src/de/uni_passau/fim/se2/sbse/suite_minimisation/algorithms/RandomSearch.java:93-107 | the scan over all tests returns the greedy choice |
| `RandomSearch.RandomSearch.CoverWith` | src/de/uni_passau/fim/se2/sbse/suite_minimisation/algorithms/RandomSearch.java:112-114 | the covered lines become their union with the test's lines |
| `RandomSearch.RandomSearch.AllCovered` | src/de/uni_passau/fim/se2/sbse/suite_minimisation/algorithms/RandomSearch.java:120-123 | true exactly when every line is covered |
| `RandomSearch.RandomSearch.GreedyStep` | src/de/uni_passau/fim/se2/sbse/suite_minimisation/algorithms/RandomSearch.java:92-124 | one greedy step selects the next test of the run and evaluates the new prefix, or stops when the run is complete |
| `RandomSearch.RandomSearch.GreedyLoop` | src/de/uni_passau/fim/se2/sbse/suite_minimisation/algorithms/RandomSearch.java:92-125 | the evaluated suites are the prefixes of the greedy run, all of them unless the budget ran out |
| `RandomSearch.RandomSearch.GreedyPrefixes` | src/de/uni_passau/fim/se2/sbse/suite_minimisation/algorithms/RandomSearch.java:88-126 | from empty genes and coverage, the evaluated suites are the prefixes of the greedy run |
| `RandomSearch.RandomSearch.LinesCovered` | src/de/uni_passau/fim/se2/sbse/suite_minimisation/algorithms/RandomSearch.java:131-136 | the loop counts the lines a test covers |
| `RandomSearch.RandomSearch.CoverageCounts` | src/de/uni_passau/fim/se2/sbse/suite_minimisation/algorithms/RandomSearch.java:129-137 | the per-test line counts |
| `RandomSearch.RandomSearch.TopKAsWritten` | src/de/uni_passau/fim/se2/sbse/suite_minimisation/algorithms/RandomSearch.java:128-147 | as written, the result is the indices 0 .. K-1, whatever the coverage |
| `RandomSearch.RandomSearch.TopKSingleTestsByCoverage` | src/de/uni_passau/fim/se2/sbse/suite_minimisation/algorithms/RandomSearch.java:128-147 | corrected: the K tests of largest coverage, a top-K by coverage (the search itself runs the code as written) |
| `RandomSearch.RandomSearch.BestSingletons` | src/de/uni_passau/fim/se2/sbse/suite_minimisation/algorithms/RandomSearch.java:71-76 | the single-test suites of the best tests are evaluated in order until the budget runs out |
| `RandomSearch.RandomSearch.SampleByTargetSize` | src/de/uni_passau/fim/se2/sbse/suite_minimisation/algorithms/RandomSearch.java:149-168 | a suite of the right length selecting exactly the biased number of tests, so never empty |
| `RandomSearch.RandomSearch.Sampling` | src/de/uni_passau/fim/se2/sbse/suite_minimisation/algorithms/RandomSearch.java:80-83 | sampled suites are evaluated until exactly the budget is spent, keeping the archive invariant |
| `RandomSearch.RandomSearch.Opening` | src/de/uni_passau/fim/se2/sbse/suite_minimisation/algorithms/RandomSearch.java:55-77 | phases A to C: the suite of all tests, the greedy prefixes, and then the single tests that `topKSingleTestsByCoverage` returns as written, tests 0 .. K-1, in order; a phase cut short leaves the budget spent |
| `RandomSearch.RandomSearch.FindSolution` | src/de/uni_passau/fim/se2/sbse/suite_minimisation/algorithms/RandomSearch.java:49-86 | exactly the budget is spent; the archive is non-empty, non-dominated and stands for every evaluated suite; the evaluations follow the phases in order, phase C evaluating tests 0 .. K-1 one by one as the code does; with gene-determined objectives the archive is exactly the Pareto front of the evaluated suites |
| `Builder.SizeFF` | src/de/uni_passau/fim/se2/sbse/suite_minimisation/utils/AlgorithmBuilder.java:84-95 | the size fitness is minimizing |
| `Builder.SizeBounds` | src/de/uni_passau/fim/se2/sbse/suite_minimisation/utils/AlgorithmBuilder.java:86-94 | for a suite of T genes selecting a test, 1/T <= size <= 1 |
| `Builder.CoveredLines` | src/de/uni_passau/fim/se2/sbse/suite_minimisation/utils/AlgorithmBuilder.java:115-121 | line l is covered exactly when some selected test covers it |
| `Builder.CoverageFF` | src/de/uni_passau/fim/se2/sbse/suite_minimisation/utils/AlgorithmBuilder.java:110-131 | the coverage fitness is maximizing |
| `Builder.CoverageBounds` | src/de/uni_passau/fim/se2/sbse/suite_minimisation/utils/AlgorithmBuilder.java:123-129 | the coverage is in [0, 1] |
| `Builder.CoverageMonotone` | src/de/uni_passau/fim/se2/sbse/suite_minimisation/utils/AlgorithmBuilder.java:115-121 | selecting a superset of tests never lowers the coverage |
| `Builder.ObjectivesGeneDetermined` | src/de/uni_passau/fim/se2/sbse/suite_minimisation/utils/AlgorithmBuilder.java:84-131 | both fitness values depend only on the genes |
| `Builder.GreedyRunCoverage` | src/de/uni_passau/fim/se2/sbse/suite_minimisation/utils/AlgorithmBuilder.java:110-131 | the suite of the whole greedy run has the coverage of the suite of all tests |
| `Builder.OrInto` | src/de/uni_passau/fim/se2/sbse/suite_minimisation/utils/AlgorithmBuilder.java:118-120 | each line of `covered` is OR-ed with the test's entry |
| `Builder.AlgorithmBuilder.constructor` | src/de/uni_passau/fim/se2/sbse/suite_minimisation/utils/AlgorithmBuilder.java:60-70 | T is the number of rows, L the length of row 0, and the fitness functions are built from them |
| `Builder.AlgorithmBuilder.CoveredArray` | src/de/uni_passau/fim/se2/sbse/suite_minimisation/utils/AlgorithmBuilder.java:115-121 | the loops fill a new array with exactly the covered lines |
| `Builder.AlgorithmBuilder.Coverage` | src/de/uni_passau/fim/se2/sbse/suite_minimisation/utils/AlgorithmBuilder.java:112-130 | the loops compute the coverage fitness, a value in [0, 1] |
| `Builder.AlgorithmBuilder.BuildAlgorithm` | src/de/uni_passau/fim/se2/sbse/suite_minimisation/utils/AlgorithmBuilder.java:151-156 | RANDOM_SEARCH gives Random Search and NSGA_II gives NSGA-II with population 50, each with a generator of T genes, bit-flip mutation, single-point crossover and the builder's fitness functions and stopping condition |
| `Builder.Create` | src/de/uni_passau/fim/se2/sbse/suite_minimisation/utils/AlgorithmBuilder.java:60-67 | a matrix without rows fails at `coverageMatrix[0]`; otherwise the builder of the constructor |
| `HyperVolume.Slab` | src/de/uni_passau/fim/se2/sbse/suite_minimisation/utils/Utils.java:91-96 | a point's rectangle is never negative, and positive exactly when its width and height are |
| `HyperVolume.Sweep` | src/de/uni_passau/fim/se2/sbse/suite_minimisation/utils/Utils.java:87-99 | the sweep is never negative |
| `HyperVolume.HyperVolumeBasics` | src/de/uni_passau/fim/se2/sbse/suite_minimisation/utils/Utils.java:66-68 | a null or empty front has volume 0, and no front has negative volume |
| `HyperVolume.SinglePoint` | src/de/uni_passau/fim/se2/sbse/suite_minimisation/utils/Utils.java:87-99 | one point (c, s) measured from (0, 1) with c > 0 and s < 1 gives c * (1 - s) |
| `HyperVolume.SweepAtMostWidth` | src/de/uni_passau/fim/se2/sbse/suite_minimisation/utils/Utils.java:87-99 | ascending points at most 1 below r2 cover at most the width they span |
| `HyperVolume.HyperVolumeAtMostOne` | src/de/uni_passau/fim/se2/sbse/suite_minimisation/utils/Utils.java:58-102 | with all values in [0, 1] and reference (0, 1) the volume is at most 1 |
| `HyperVolume.TwoPoints` | src/de/uni_passau/fim/se2/sbse/suite_minimisation/utils/Utils.java:81-99 | the points (0.2, 0.8) and (0.6, 0.4) from (0, 1) give 0.28 |
| `HyperVolume.ComputeHyperVolume` | src/de/uni_passau/fim/se2/sbse/suite_minimisation/utils/Utils.java:58-102 | the method computes the sweep over the points sorted by f1, and 0 for a null or empty front |
| `HyperVolume.CollectPoints` | src/de/uni_passau/fim/se2/sbse/suite_minimisation/utils/Utils.java:74-78 | the loop collects the point of every member in order |
| `HyperVolume.SweepLeftToRight` | src/de/uni_passau/fim/se2/sbse/suite_minimisation/utils/Utils.java:83-99 | the loop's accumulated volume is the sweep |
| `MatrixParser.RemoveBrackets` | src/de/uni_passau/fim/se2/sbse/suite_minimisation/utils/Utils.java:31 | no bracket is left, and every remaining character comes from the line |
| `MatrixParser.DropTrailingEmpty` | src/de/uni_passau/fim/se2/sbse/suite_minimisation/utils/Utils.java:31 | `split` drops exactly the empty pieces at the end |
| `MatrixParser.ParseRow` | src/de/uni_passau/fim/se2/sbse/suite_minimisation/utils/Utils.java:31-36 | a row has one entry per piece of the bracket-free line |
| `MatrixParser.ParseMatrix` | src/de/uni_passau/fim/se2/sbse/suite_minimisation/utils/Utils.java:22-37 | fewer than two lines fail as `removeFirst`/`removeLast` do; otherwise there is one row per line between the first and the last |
| `MatrixParser.ParseCoverageMatrix` | src/de/uni_passau/fim/se2/sbse/suite_minimisation/utils/Utils.java:19-40 | the loops compute the parsed matrix |
| `MatrixParser.ParseLine` | src/de/uni_passau/fim/se2/sbse/suite_minimisation/utils/Utils.java:31-36 | the inner loop parses one row |
| `MatrixParser.SplitJoin` | src/de/uni_passau/fim/se2/sbse/suite_minimisation/utils/Utils.java:31 | splitting the ", "-joined tokens gives them back |
| `MatrixParser.TokenParses` | src/de/uni_passau/fim/se2/sbse/suite_minimisation/utils/Utils.java:35 | "true" parses to true and "false" to false |
| `MatrixParser.RowRoundTrip` | src/de/uni_passau/fim/se2/sbse/suite_minimisation/utils/Utils.java:31-36 | a non-empty row printed in brackets parses back to itself |
| `MatrixParser.RoundTrip` | src/de/uni_passau/fim/se2/sbse/suite_minimisation/utils/Utils.java:19-40 | a matrix whose rows are non-empty, printed one row per line between bracket lines, parses back to itself |
| `MatrixParser.EmptyRowIsOneFalse` | src/de/uni_passau/fim/se2/sbse/suite_minimisation/utils/Utils.java:31-35 | the row "[]" parses to one false entry |
| `MatrixParser.ParseBooleanCases` | src/de/uni_passau/fim/se2/sbse/suite_minimisation/utils/Utils.java:35 | the token is true exactly when it is "true" in any letter case; anything else, even with a space, is false |
| `MatrixParser.TwoByTwo` | src/de/uni_passau/fim/se2/sbse/suite_minimisation/utils/Utils.java:22-37 | a two-by-two matrix file parses to its entries |
| `Pareto.LayerEmptyAllDone` | src/de/uni_passau/fim/se2/sbse/suite_minimisation/algorithms/NSGA2.java:167-178 | once the next front comes out empty, every member already has a front, so the loop's exit leaves no member unranked |
| `RandomSearch.RandomSearch.Offer` | src/de/uni_passau/fim/se2/sbse/suite_minimisation/algorithms/RandomSearch.java:111-117 | a suite built from genes that select a test is evaluated and inserted into the archive, keeping the archive invariant |

## Left out

- `java.util.Random` and the global `Randomness` source: draws are a stream of reals in [0, 1). `nextInt(b)` is the integer part of u * b, not Java's algorithm on 31-bit integers, and the seeding is not modelled. One random source serves the whole search.
- Floating point: every `double` is a real, so there is no rounding and no NaN. `Builder.CoverageFF` gives 0.0 for a matrix with no lines, where Java divides 0.0 by 0 and gets NaN.
- The tournament's `do`/`while` redraw loop needs a ghost assumption on the stream of draws (`NeverStuck`: a draw different from the first one comes eventually). The searches' methods require it instead of proving termination for every stream.
- File input: `Files.readAllLines` is outside the model, so the parser takes the file's lines. The command line entry point is not part of this model.
- `greedyCoverageSeed` of Random Search is never called, and is not modelled.
- `hashCode` of a chromosome, `boxed()` of a fitness function and the `toString` of the operators are not modelled.
- In `buildNSGA2`, the first NSGA-II instance and its tournament selection are built and then discarded; only the instance that is returned is modelled.
- `List.sort` and `Arrays.sort` sort in place. The model computes the sorted sequence as a value, with the same stable order.
- The `isEmpty()` branch at the end of NSGA-II's `findSolution` is unreachable, because the fast non-dominated sort always returns at least one front. The model takes the first front.
- The `IdentityHashMap`s of NSGA-II are keyed by the member's position in the population list, which is how identity tells the members apart.
- The interfaces `SearchAlgorithm`, `ChromosomeGenerator`, `Chromosome`, `Mutation`, `Selection` and `GeneticAlgorithm`, and the classes `Pair`, `SearchAlgorithmType`, `MinimizingFitnessFunction` and `MaximizingFitnessFunction`, have no behaviour of their own. They are folded into the modules that use them.
- `Nsga2.Nsga2.FindSolution` requires a population size of at least 1, because with 0 the Java loop never evaluates and never stops. It requires a budget below `Integer.MAX_VALUE`, because the second child may push the counter one past the budget and wrap it. It also requires at least one test case and the `NeverStuck` stream.
- `RandomSearch.RandomSearch.FindSolution` requires a rectangular matrix and at least one test case, because with none `sampleByTargetSize` calls `nextInt(0)`.
- `RandomSearch.ArchiveIsParetoFront` holds only when both objectives depend on the genes alone, as the builder's do (`Builder.ObjectivesGeneDetermined`). Without that assumption the model proves that the archive is non-dominated and stands for every evaluated suite.
- `MatrixParser.RoundTrip` holds only for rows with at least one entry. The row `[]` splits into one empty token and parses as `[false]` (`MatrixParser.EmptyRowIsOneFalse`).
- `MatrixParser.ParseBoolean` ignores the letter case of the ASCII letters of "true" only, which is all `Boolean.parseBoolean` needs to accept "true" in any case.
- `Builder.AlgorithmBuilder.constructor` requires a non-empty matrix. `Builder.Create` returns the exception for an empty matrix.
- `Builder.SizeFF` requires at least one test case, because Java divides by 0 without one.
- `Builder.CoverageFF` (through `Builder.CoveredLines`): when a selected test has no row in the matrix, or its row is shorter than the number of lines, the model counts the missing entries as not covered. At AlgorithmBuilder.java:118-119 Java reads past the row and throws `ArrayIndexOutOfBoundsException`, and that exception is not modelled. Only a jagged matrix or a chromosome longer than the matrix leads there; the parser can return a jagged matrix. `RandomSearch.RandomSearch.FindSolution` requires a rectangular matrix, and NSGA-II's does not.

## Findings

| source | as written | input that shows it | evidently intended | confidence | as-written member | corrected member |
|---|---|---|---|---|---|---|
| src/de/uni_passau/fim/se2/sbse/suite_minimisation/fitness_functions/FitnessFunction.java:133-137 | for a minimising function `best` uses `minBy` on `comparator()`, which already ranks the better (smaller) value higher, so it returns the worse value | minimising identity function, `best(1.0, 2.0)` returns 2.0 | the better value: 1.0 | not executed | `FitnessFunctions.Best`, `FitnessFunctions.BestMinimizingPicksWorse` | `FitnessFunctions.BestIntended`, `FitnessFunctions.BestIntendedMinimizing`, `FitnessFunctions.BestIntendedAgreesWhenMaximizing` |
| src/de/uni_passau/fim/se2/sbse/suite_minimisation/algorithms/RandomSearch.java:128-147 | `topK` counts each test's lines, then sorts the index array with `Arrays.sort(idx)` in natural order, so the counts are never used and the result is 0 .. K-1 | 21 tests where only test 20 covers the single line, K = 20: test 20 is left out | the K tests that cover the most lines | not executed | `RandomSearch.RandomSearch.TopKAsWritten` (the model's search runs this one), `RandomSearch.TopKAsWrittenMissesBest` | `RandomSearch.RandomSearch.TopKSingleTestsByCoverage`, `RandomSearch.TopKByCoverageIsTopK` (proved beside the search, which keeps the code's behaviour) |

/**
 * Fitness functions: a function from solutions to non-negative reals, and
 * whether lower (minimizing) or higher (maximizing) values are better. The
 * comparator, `best` and `andThenAsDouble` combinators are derived from these
 * two parts.
 */
module FitnessFunctions {

  /** `FitnessFunction<C>`: `applyAsDouble` and `isMinimizing()`. */
  datatype FitnessFunction<-C> = FitnessFunction(apply: C -> real, minimizing: bool)

  /** `isMaximizing()`. */
  predicate IsMaximizing<C>(f: FitnessFunction<C>)
  {
    !f.minimizing
  }

  /** Exactly one of the two kinds holds. */
  lemma KindsExclusive<C>(f: FitnessFunction<C>)
    ensures IsMaximizing(f) <==> !f.minimizing
  {
  }

  /** `x` is a better fitness value than `y` under the function's kind. */
  predicate BetterValue(minimizing: bool, x: real, y: real)
  {
    if minimizing then x < y else x > y
  }

  /** `Double.compare` on values that are never NaN: -1, 0 or 1 by the order of the arguments. */
  function DoubleCompare(x: real, y: real): (r: int)
    ensures -1 <= r <= 1
    ensures r < 0 <==> x < y
    ensures r == 0 <==> x == y
    ensures r > 0 <==> x > y
  {
    if x < y then -1 else if x > y then 1 else 0
  }

  /**
   * `comparator()`: `Comparator.comparingDouble(this)`, reversed for a
   * minimizing function. Positive means the first solution is better.
   */
  function Compare<C>(f: FitnessFunction<C>, c1: C, c2: C): (r: int)
    ensures r > 0 <==> BetterValue(f.minimizing, f.apply(c1), f.apply(c2))
    ensures r < 0 <==> BetterValue(f.minimizing, f.apply(c2), f.apply(c1))
    ensures r == 0 <==> f.apply(c1) == f.apply(c2)
  {
    if f.minimizing then DoubleCompare(f.apply(c2), f.apply(c1))
    else DoubleCompare(f.apply(c1), f.apply(c2))
  }

  /** The comparator is antisymmetric. */
  lemma CompareAntisymmetric<C>(f: FitnessFunction<C>, c1: C, c2: C)
    ensures Compare(f, c1, c2) == -Compare(f, c2, c1)
  {
  }

  /** `BinaryOperator.minBy(cmp)`: the first argument unless the second compares strictly lower. */
  function MinBy<C>(cmp: int, a: C, b: C): C
  {
    if cmp <= 0 then a else b
  }

  /** `BinaryOperator.maxBy(cmp)`: the first argument unless the second compares strictly higher. */
  function MaxBy<C>(cmp: int, a: C, b: C): C
  {
    if cmp >= 0 then a else b
  }

  /**
   * `best()` as written: `minBy(comparator())` for a minimizing function and
   * `maxBy(comparator())` for a maximizing one. The comparator of a minimizing
   * function is already reversed, so `minBy` picks the higher value.
   */
  function Best<C>(f: FitnessFunction<C>, a: C, b: C): (r: C)
    ensures r == a || r == b
    ensures f.apply(a) == f.apply(b) ==> r == a
    ensures f.apply(r) >= f.apply(a) && f.apply(r) >= f.apply(b)
  {
    if f.minimizing then MinBy(Compare(f, a, b), a, b) else MaxBy(Compare(f, a, b), a, b)
  }

  /** For a maximizing function `best()` returns the argument with the higher fitness, the first on a tie. */
  lemma BestMaximizing<C>(f: FitnessFunction<C>, a: C, b: C)
    requires IsMaximizing(f)
    ensures Best(f, a, b) == (if f.apply(b) > f.apply(a) then b else a)
  {
  }

  /** The identity fitness on reals, minimizing: lower is better. */
  function IdentityMinimizing(): FitnessFunction<real>
  {
    FitnessFunction(x => x, true)
  }

  /** For a minimizing function `best()` as written returns the worse argument: best(1, 2) is 2. */
  lemma BestMinimizingPicksWorse()
    ensures Best(IdentityMinimizing(), 1.0, 2.0) == 2.0
    ensures BetterValue(true, IdentityMinimizing().apply(1.0), IdentityMinimizing().apply(2.0))
  {
  }

  /**
   * `best()` as documented: the better of the two arguments under the
   * function's kind, the first one when they are equally good. Because the
   * comparator already encodes the kind, this is `maxBy(comparator())` for both.
   */
  function BestIntended<C>(f: FitnessFunction<C>, a: C, b: C): (r: C)
    ensures r == a || r == b
    ensures r == (if BetterValue(f.minimizing, f.apply(b), f.apply(a)) then b else a)
    ensures !BetterValue(f.minimizing, f.apply(a), f.apply(r)) && !BetterValue(f.minimizing, f.apply(b), f.apply(r))
  {
    MaxBy(Compare(f, a, b), a, b)
  }

  /** The two definitions agree exactly on maximizing functions. */
  lemma BestIntendedAgreesWhenMaximizing<C>(f: FitnessFunction<C>, a: C, b: C)
    requires IsMaximizing(f)
    ensures Best(f, a, b) == BestIntended(f, a, b)
  {
  }

  /** On the minimizing example the intended `best` picks the lower value. */
  lemma BestIntendedMinimizing()
    ensures BestIntended(IdentityMinimizing(), 1.0, 2.0) == 1.0
  {
  }

  /** `andThenAsDouble(after)`: `after` applied to the fitness, of the same kind. */
  function AndThenAsDouble<C(!new)>(f: FitnessFunction<C>, after: real -> real): (g: FitnessFunction<C>)
    ensures g.minimizing == f.minimizing
    ensures forall c :: g.apply(c) == after(f.apply(c))
  {
    FitnessFunction(c => after(f.apply(c)), f.minimizing)
  }

  /** Composing twice is composing once with the composed transformation. */
  lemma AndThenAssociative<C(!new)>(f: FitnessFunction<C>, g: real -> real, h: real -> real, c: C)
    ensures AndThenAsDouble(AndThenAsDouble(f, g), h).apply(c) == AndThenAsDouble(f, x => h(g(x))).apply(c)
    ensures AndThenAsDouble(AndThenAsDouble(f, g), h).minimizing == f.minimizing
  {
  }

  /** A strictly increasing transformation leaves the comparator, and so every ranking, unchanged. */
  lemma AndThenKeepsOrder<C(!new)>(f: FitnessFunction<C>, after: real -> real, c1: C, c2: C)
    requires forall x: real, y: real :: x < y ==> after(x) < after(y)
    ensures Compare(AndThenAsDouble(f, after), c1, c2) == Compare(f, c1, c2)
  {
    var x, y := f.apply(c1), f.apply(c2);
    if x < y {
      assert after(x) < after(y);
    } else if y < x {
      assert after(y) < after(x);
    }
  }
}

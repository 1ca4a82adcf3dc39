/**
 * The fitness-evaluation budget. The counter is a Java `int`: it starts at
 * Integer.MAX_VALUE so that a search that was never started must stop, and
 * every addition wraps around modulo 2^32.
 */
module StoppingConditions {
  import opened Wrappers

  const INT_MIN: int := -0x8000_0000
  const INT_MAX: int := 0x7fff_ffff
  const TWO_32: int := 0x1_0000_0000

  predicate IsInt32(x: int)
  {
    INT_MIN <= x <= INT_MAX
  }

  /** Java `int` arithmetic: the value congruent to x modulo 2^32 in the `int` range. */
  function Wrap(x: int): (r: int)
    ensures IsInt32(r)
    ensures IsInt32(x) ==> r == x
    ensures (r - x) % TWO_32 == 0
  {
    (x - INT_MIN) % TWO_32 + INT_MIN
  }

  /** Wrapping once after every step is the same as wrapping at the end. */
  lemma WrapStep(x: int, k: int)
    ensures Wrap(Wrap(x) + k) == Wrap(x + k)
  {
    var d := Wrap(x) - x;
    assert d % TWO_32 == 0;
    assert (Wrap(x) + k - INT_MIN) == (x + k - INT_MIN) + d;
    ModuloShift(x + k - INT_MIN, d);
  }

  lemma ModuloShift(a: int, d: int)
    requires d % TWO_32 == 0
    ensures (a + d) % TWO_32 == a % TWO_32
  {
    var q := d / TWO_32;
    assert d == q * TWO_32;
    ModuloAddMultiple(a, q);
  }

  lemma ModuloAddMultiple(a: int, q: int)
    ensures (a + q * TWO_32) % TWO_32 == a % TWO_32
  {
  }

  /** `MaxFitnessEvaluations`: a budget and a counter of fitness evaluations. */
  class MaxFitnessEvaluations {
    /** `maxFitnessEvaluations`: fixed at construction. */
    const budget: int
    /** `fitnessEvaluations`. */
    var counter: int

    ghost predicate Valid()
      reads this
    {
      0 < budget <= INT_MAX && IsInt32(counter)
    }

    /** The constructor for a positive budget; the counter starts at Integer.MAX_VALUE. */
    constructor (budget: int)
      requires 0 < budget <= INT_MAX
      ensures Valid()
      ensures this.budget == budget && counter == INT_MAX
    {
      this.budget := budget;
      counter := INT_MAX;
    }

    /** `notifySearchStarted()`: the counter goes back to 0. */
    method NotifySearchStarted()
      requires Valid()
      modifies this
      ensures Valid() && counter == 0
    {
      counter := 0;
    }

    /** `notifyFitnessEvaluation()`: one more evaluation, with `int` wrap-around. */
    method NotifyFitnessEvaluation()
      requires Valid()
      modifies this
      ensures Valid() && counter == Wrap(old(counter) + 1)
    {
      counter := Wrap(counter + 1);
    }

    /** `notifyFitnessEvaluations(k)`: a negative count is rejected before any change. */
    method NotifyFitnessEvaluations(evaluations: int) returns (o: Outcome)
      requires Valid() && IsInt32(evaluations)
      modifies this
      ensures Valid()
      ensures evaluations < 0 ==> o == Fail(IllegalArgument) && counter == old(counter)
      ensures evaluations >= 0 ==> o == Pass && counter == Wrap(old(counter) + evaluations)
    {
      if evaluations < 0 {
        return Fail(IllegalArgument);
      }
      counter := Wrap(counter + evaluations);
      return Pass;
    }

    /**
     * The interface's default `notifyFitnessEvaluations(k)`: k single
     * notifications in a loop. It has the same effect as the override above.
     */
    method DefaultNotifyFitnessEvaluations(evaluations: int) returns (o: Outcome)
      requires Valid() && IsInt32(evaluations)
      modifies this
      ensures Valid()
      ensures evaluations < 0 ==> o == Fail(IllegalArgument) && counter == old(counter)
      ensures evaluations >= 0 ==> o == Pass && counter == Wrap(old(counter) + evaluations)
    {
      if evaluations < 0 {
        return Fail(IllegalArgument);
      }
      var i := 0;
      while i < evaluations
        invariant 0 <= i <= evaluations
        invariant Valid() && counter == Wrap(old(counter) + i)
      {
        NotifyFitnessEvaluation();
        WrapStep(old(counter) + i, 1);
        i := i + 1;
      }
      return Pass;
    }

    /** `searchMustStop()`: the budget is used up. */
    predicate SearchMustStop()
      reads this
    {
      !(counter < budget)
    }

    /** `getProgress()`: the fraction of the budget used. */
    function GetProgress(): (p: real)
      requires Valid()
      reads this
      ensures p * budget as real == counter as real
      ensures 0 <= counter <= budget ==> 0.0 <= p <= 1.0
      ensures p >= 1.0 <==> SearchMustStop()
    {
      ProgressBounds(counter, budget);
      counter as real / budget as real
    }
  }

  /** counter / budget for a positive budget: exact, in [0, 1] while 0 <= counter <= budget, and >= 1 exactly when used up. */
  lemma ProgressBounds(counter: int, budget: int)
    requires budget > 0
    ensures (counter as real / budget as real) * budget as real == counter as real
    ensures 0 <= counter <= budget ==> 0.0 <= counter as real / budget as real <= 1.0
    ensures counter as real / budget as real >= 1.0 <==> counter >= budget
  {
    var p := counter as real / budget as real;
    var b := budget as real;
    assert p * b == counter as real;
    if counter >= budget {
      assert p * b >= b;
    } else {
      assert p * b < b;
    }
  }

  /** `MaxFitnessEvaluations.of(k)` and the constructor's guard: a non-positive budget is rejected. */
  method Of(budget: int) returns (r: Result<MaxFitnessEvaluations>)
    requires IsInt32(budget)
    ensures budget <= 0 ==> r == Err(IllegalArgument)
    ensures budget > 0 ==> r.Ok? && fresh(r.value) && r.value.Valid()
    ensures budget > 0 ==> r.value.budget == budget && r.value.counter == INT_MAX
  {
    if budget <= 0 {
      return Err(IllegalArgument);
    }
    var m := new MaxFitnessEvaluations(budget);
    return Ok(m);
  }

  /**
   * The life cycle of a budget of three: it must stop before the search
   * starts, not at start (progress 0), not after two evaluations, and it
   * must stop after the third.
   */
  method BudgetOfThree() returns (beforeStart: bool, atStart: bool, progressAtStart: real, afterTwo: bool, afterThree: bool)
    ensures beforeStart && !atStart && progressAtStart == 0.0 && !afterTwo && afterThree
  {
    var m := new MaxFitnessEvaluations(3);
    beforeStart := m.SearchMustStop();
    m.NotifySearchStarted();
    atStart := m.SearchMustStop();
    progressAtStart := m.GetProgress();
    m.NotifyFitnessEvaluation();
    m.NotifyFitnessEvaluation();
    afterTwo := m.SearchMustStop();
    m.NotifyFitnessEvaluation();
    afterThree := m.SearchMustStop();
  }

  /** Notifying an unstarted budget once wraps the counter to Integer.MIN_VALUE, so the search may go on. */
  method NotifyBeforeStart() returns (counter: int, mustStop: bool)
    ensures counter == INT_MIN && !mustStop
  {
    var m := new MaxFitnessEvaluations(10);
    m.NotifyFitnessEvaluation();
    counter := m.counter;
    mustStop := m.SearchMustStop();
  }
}

/**
 * Binary tournament selection without replacement: two distinct positions of
 * the population are drawn and the comparator picks the better candidate.
 */
module Selection {
  import opened Wrappers
  import opened Randomness

  /** The tournament's decision: the first candidate unless the comparator says it is worse. */
  function Decide<C>(compare: (C, C) -> int, c1: C, c2: C): C
  {
    if compare(c1, c2) >= 0 then c1 else c2
  }

  /**
   * The winner is one of the two candidates, a tie goes to the first one, and
   * under an antisymmetric comparator the other candidate never beats it.
   */
  lemma DecideFacts<C>(compare: (C, C) -> int, c1: C, c2: C)
    requires compare(c1, c2) == -compare(c2, c1)
    ensures Decide(compare, c1, c2) == c1 || Decide(compare, c1, c2) == c2
    ensures compare(c1, c2) == 0 ==> Decide(compare, c1, c2) == c1
    ensures compare(c2, c1) > 0 ==> Decide(compare, c1, c2) == c2
    ensures compare(c1, c2) > 0 ==> Decide(compare, c1, c2) == c1
    ensures var w := Decide(compare, c1, c2);
      compare(if w == c1 then c2 else c1, w) <= 0
  {
  }

  /**
   * `w` can come out of a binary tournament on the population: the only
   * member of a one-member population, or the comparator's choice between the
   * members at two different positions.
   */
  ghost predicate TournamentWinner<C>(compare: (C, C) -> int, population: seq<C>, w: C)
  {
    || (|population| == 1 && w == population[0])
    || (|population| >= 2 &&
        exists i, j :: 0 <= i < |population| && 0 <= j < |population| && i != j
                       && w == Decide(compare, population[i], population[j]))
  }

  /**
   * `apply(population)`: an empty population is rejected, a single member is
   * returned without drawing, and otherwise the first index is drawn and the
   * second one is redrawn until it differs from the first. The redrawing
   * terminates because the stream never repeats one value forever.
   */
  method Apply<C>(population: seq<C>, compare: (C, C) -> int, rng: Random) returns (r: Result<C>)
    requires NeverStuck(rng.stream)
    modifies rng
    ensures |population| == 0 ==> r == Err(NoSuchElement) && rng.cursor == old(rng.cursor)
    ensures |population| == 1 ==> r == Ok(population[0]) && rng.cursor == old(rng.cursor)
    ensures |population| >= 2 ==> rng.cursor >= old(rng.cursor) + 2
    ensures |population| >= 2 ==>
      var n := |population|;
      var i1 := Scale(rng.stream(old(rng.cursor)), n);
      var i2 := Scale(rng.stream(rng.cursor - 1), n);
      i1 != i2 &&
      (forall p :: old(rng.cursor) < p < rng.cursor - 1 ==> Scale(rng.stream(p), n) == i1) &&
      r == Ok(Decide(compare, population[i1], population[i2]))
    ensures r.Ok? ==> r.value in population && TournamentWinner(compare, population, r.value)
  {
    var size := |population|;
    if size == 0 {
      return Err(NoSuchElement);
    }
    if size == 1 {
      return Ok(population[0]);
    }
    var start := rng.cursor;
    var i1 := rng.NextInt(size);
    assert DiffersLater(rng.stream, rng.cursor, size, i1);
    ghost var k: nat :| k >= rng.cursor && Scale(rng.stream(k), size) != i1;
    var i2 := rng.NextInt(size);
    while i2 == i1
      invariant start + 2 <= rng.cursor
      invariant i2 == Scale(rng.stream(rng.cursor - 1), size)
      invariant rng.cursor - 1 <= k
      invariant forall p :: start < p < rng.cursor - 1 ==> Scale(rng.stream(p), size) == i1
      decreases k + 1 - rng.cursor
    {
      i2 := rng.NextInt(size);
    }
    r := Ok(Decide(compare, population[i1], population[i2]));
    assert i1 != i2 && r.value == Decide(compare, population[i1], population[i2]);
  }
}

/**
 * The shared, seedable source of randomness. Every draw of the search comes
 * from one stream of uniform reals in [0, 1); the stream itself is a parameter,
 * so every run is a function of it.
 */
module Randomness {

  /** A uniform draw: a real in [0, 1). */
  type Unit = x: real | 0.0 <= x < 1.0

  /** `nextInt(bound)` from a uniform draw: an integer in [0, bound). */
  function Scale(u: Unit, bound: nat): (k: nat)
    requires bound > 0
    ensures k < bound
    ensures k as real <= u * bound as real < k as real + 1.0
  {
    ScaledBelow(u, bound as real);
    (u * bound as real).Floor
  }

  /** A draw scaled by a positive bound stays in [0, bound). */
  lemma ScaledBelow(u: Unit, b: real)
    requires b > 0.0
    ensures 0.0 <= u * b < b
  {
    assert b - u * b == (1.0 - u) * b;
  }

  /** The `n` draws of the stream from position `from` on. */
  function Draws(stream: nat -> Unit, from: nat, n: nat): (d: seq<Unit>)
    ensures |d| == n && forall i :: 0 <= i < n ==> d[i] == stream(from + i)
  {
    seq(n, i requires 0 <= i < n => stream(from + i))
  }

  /** From `pos` on, the stream yields some integer in [0, bound) other than `v`. */
  ghost predicate DiffersLater(stream: nat -> Unit, pos: nat, bound: nat, v: nat)
    requires bound > 0
  {
    exists k: nat :: k >= pos && Scale(stream(k), bound) != v
  }

  /**
   * The stream never repeats one integer draw forever. A rejection loop that
   * redraws until the value changes terminates under this condition (in the
   * source it terminates with probability one).
   */
  ghost predicate NeverStuck(stream: nat -> Unit)
  {
    forall pos: nat, bound: nat, v: nat {:trigger DiffersLater(stream, pos, bound, v)} ::
      bound >= 2 ==> DiffersLater(stream, pos, bound, v)
  }

  class Random {
    const stream: nat -> Unit
    var cursor: nat

    constructor (stream: nat -> Unit)
      ensures this.stream == stream && cursor == 0
    {
      this.stream := stream;
      cursor := 0;
    }

    /** `nextDouble()`: the next draw of the stream. */
    method NextDouble() returns (d: Unit)
      modifies this
      ensures d == stream(old(cursor))
      ensures cursor == old(cursor) + 1
    {
      d := stream(cursor);
      cursor := cursor + 1;
    }

    /** `nextInt(bound)`: the next draw scaled to [0, bound). */
    method NextInt(bound: nat) returns (k: nat)
      requires bound > 0
      modifies this
      ensures k == Scale(stream(old(cursor)), bound) && k < bound
      ensures cursor == old(cursor) + 1
    {
      k := Scale(stream(cursor), bound);
      cursor := cursor + 1;
    }
  }
}

/** do_rand of user/grind.c: the Park-Miller generator, computed by Schrage's method without
    leaving 32 bits. */
module Schrage {
  const M := 0x7fff_ffff            // 2^31 - 1
  const A := 16807
  const INVERSE := 1407677000       // A * INVERSE is 1 modulo M

  /** The generator as it is meant: multiplication by A modulo M, on [0, M - 2]. */
  function Step(ctx: nat): (r: int) {
    A * (ctx % (M - 1) + 1) % M - 1
  }

  /** One step back. */
  function Undo(r: nat): (ctx: int) {
    INVERSE * (r + 1) % M - 1
  }

  lemma ModIs(x: int, q: int, r: int)
    requires x == M * q + r && 0 <= r < M
    ensures x % M == r
  {
  }

  /** A and INVERSE undo each other modulo M, in either order. */
  lemma InverseOf(x: nat, c: int, d: int)
    requires 1 <= x < M && c * d == M * 11017 + 1 && ((c == A && d == INVERSE) || (c == INVERSE && d == A))
    ensures d * (c * x % M) % M == x && 1 <= c * x % M
  {
    var y, q := c * x % M, c * x / M;
    assert c * x == M * q + y;
    assert d * y == M * (11017 * x - d * q) + x by {
      assert d * (c * x) == d * (M * q + y);
      assert d * (c * x) == (c * d) * x;
    }
    ModIs(d * y, 11017 * x - d * q, x);
    assert y != 0;
  }

  /** Steps stay in [0, M - 2], and Undo takes them back. */
  lemma StepUndone(ctx: nat)
    requires ctx <= M - 2
    ensures 0 <= Step(ctx) <= M - 2 && Undo(Step(ctx)) == ctx
  {
    InverseOf(ctx + 1, A, INVERSE);
  }

  /** Every value in the range is the step of another one: the generator permutes the range. */
  lemma UndoStepped(r: nat)
    requires r <= M - 2
    ensures 0 <= Undo(r) <= M - 2 && Step(Undo(r)) == r
  {
    InverseOf(r + 1, INVERSE, A);
  }

  /** No two contexts in the range step to the same value. */
  lemma StepInjective(a: nat, b: nat)
    requires a <= M - 2 && b <= M - 2 && Step(a) == Step(b)
    ensures a == b
  {
    StepUndone(a);
    StepUndone(b);
  }

  /** Schrage's decomposition: with M == 127773 * A + 2836 the product modulo M is the
      difference of two small products, corrected once. */
  lemma Decomposed(x: nat)
    requires 1 <= x < M
    ensures var hi, lo := x / 127773, x % 127773;
            var y := A * lo - 2836 * hi;
            && 0 <= hi <= A && A * lo <= M && 2836 * hi <= M && -M < y < M
            && A * x % M == (if y < 0 then y + M else y)
  {
    var hi, lo := x / 127773, x % 127773;
    var y := A * lo - 2836 * hi;
    assert x == 127773 * hi + lo;
    assert A * x == M * hi + y;
    if y < 0 { ModIs(A * x, hi - 1, y + M); } else { ModIs(A * x, hi, y); }
  }

  /** A number that fits a signed 32-bit word; every operation below is checked to give one. */
  newtype word = x: int | -M <= x <= M

  class Random {
    var ctx: nat             // unsigned long

    constructor (seed: nat)
      requires seed < 0x1_0000_0000_0000_0000
      ensures ctx == seed
    {
      ctx := seed;
    }

    /** do_rand.  All it computes after the first remainder is of type `word`. */
    method DoRand() returns (r: word)
      requires ctx < 0x1_0000_0000_0000_0000
      modifies this
      ensures r as int == Step(old(ctx)) == ctx && 0 <= r <= 0x7fff_fffd
    {
      var x: word := (ctx % 0x7fff_fffe) as word + 1;
      Decomposed(x as nat);
      InverseOf(x as nat, A, INVERSE);
      var hi: word := x / 127773;
      var lo: word := x % 127773;
      x := 16807 * lo - 2836 * hi;
      if x < 0 {
        x := x + 0x7fff_ffff;
      }
      x := x - 1;
      ctx := x as nat;
      return x;
    }
  }
}

/** Shared building blocks: an optional value and the random draws the
    game makes. Every `Math.random()` call becomes a parameter `u` with
    `IsRoll(u)`. */
module Common {

  datatype Option<+T> = None | Some(value: T)

  /** A value returned by `Math.random()`: a real in [0, 1). */
  predicate IsRoll(u: real) {
    0.0 <= u < 1.0
  }

  lemma ScaledRollBounds(u: real, n: nat)
    requires IsRoll(u) && n > 0
    ensures 0 <= (u * n as real).Floor < n
  {
    var x := u * n as real;
    assert 0.0 <= x by {
      assert 0.0 <= u && 0.0 <= n as real;
    }
    assert x < n as real by {
      assert u * n as real < 1.0 * n as real;
    }
  }

  /** `Math.floor(Math.random() * n)`: a uniform draw from 0 .. n-1. */
  function RandomBelow(u: real, n: nat): (r: nat)
    requires IsRoll(u) && n > 0
    ensures r < n
  {
    ScaledRollBounds(u, n);
    (u * n as real).Floor
  }

  /** `Phaser.Math.Between(lo, hi)`: floor(u * (hi - lo + 1)) + lo, a draw from lo .. hi. */
  function Between(u: real, lo: int, hi: int): (r: int)
    requires IsRoll(u) && lo <= hi
    ensures lo <= r <= hi
  {
    lo + RandomBelow(u, hi - lo + 1)
  }

  function Max(a: int, b: int): int { if a >= b then a else b }
  function Min(a: int, b: int): int { if a <= b then a else b }
  function MaxR(a: real, b: real): real { if a >= b then a else b }
  function MinR(a: real, b: real): real { if a <= b then a else b }
}

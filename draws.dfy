/**
 * The outcomes of `Math.random()` and `p.random(0, n)`, passed to the model
 * as inputs. Nothing here describes a distribution: a draw is any real in
 * [0, 1), and every operation that consumes randomness takes its draws as
 * parameters.
 */
module Draws {
  /** One result of `Math.random()`. */
  type Unit = r: real | 0.0 <= r < 1.0

  lemma ProductBounds(r: Unit, n: int)
    ensures n >= 0 ==> 0.0 <= r * n as real
    ensures n > 0 ==> r * n as real < n as real
    ensures n < 0 ==> n as real < r * n as real <= 0.0
  {
    var m := n as real;
    if n >= 0 {
      NonNegativeProduct(r, m);
    }
    if n > 0 {
      PositiveProduct(1.0 - r, m);
      assert (1.0 - r) * m == m - r * m;
    }
    if n < 0 {
      PositiveProduct(1.0 - r, -m);
      NonNegativeProduct(r, -m);
      assert (1.0 - r) * (-m) == r * m - m;
      assert r * (-m) == -(r * m);
    }
  }

  lemma NonNegativeProduct(a: real, b: real)
    requires a >= 0.0 && b >= 0.0
    ensures a * b >= 0.0
  {}

  lemma PositiveProduct(a: real, b: real)
    requires a > 0.0 && b > 0.0
    ensures a * b > 0.0
  {}

  /**
   * `Math.floor(r * n)`: the pick a component derives from one draw. For a
   * positive range it is an index into that range; for a zero or negative
   * range (a word longer than the row, say) it lies between `n` and 0.
   */
  function FloorMul(r: Unit, n: int): (k: int)
    ensures n > 0 ==> 0 <= k < n
    ensures n == 0 ==> k == 0
    ensures n < 0 ==> n <= k <= 0
  {
    ProductBounds(r, n);
    (r * n as real).Floor
  }

  /**
   * The three draws one word placement consumes: the orientation coin
   * (`Math.random() < 0.5` means horizontal), then the two picks.
   */
  datatype Placement = Placement(coin: Unit, first: Unit, second: Unit)

  /** `Math.floor(Math.random() * 10).toString()`: a filler digit. */
  function Digit(r: Unit): (c: char)
    ensures '0' <= c <= '9'
  {
    ('0' as int + FloorMul(r, 10)) as char
  }
}

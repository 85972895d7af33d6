/**
 * Arithmetic helpers of src/util.cc over real numbers: `sign`, `move_towards`
 * and the cubic `ease`. Floating-point rounding is not modelled.
 */
module Util {

  function Abs(x: real): real
  {
    if x < 0.0 then -x else x
  }

  /** `sign(n)`: the difference of the two comparisons `(n > 0) - (n < 0)`. */
  function Sign(n: real): (r: real)
    ensures n > 0.0 ==> r == 1.0
    ensures n == 0.0 ==> r == 0.0
    ensures n < 0.0 ==> r == -1.0
  {
    (if n > 0.0 then 1.0 else 0.0) - (if n < 0.0 then 1.0 else 0.0)
  }

  /**
   * `move_towards(n, t, d)`: the target itself when it is within `d` of `n`,
   * otherwise `n` moved by `d` in the direction of `t`.
   */
  function MoveTowards(n: real, t: real, d: real): (r: real)
    ensures Abs(t - n) <= d ==> r == t
    ensures Abs(t - n) > d && t > n ==> r == n + d
    ensures Abs(t - n) > d && t < n ==> r == n - d
    ensures t == n ==> r == n
  {
    if Abs(t - n) <= d then t else n + Sign(t - n) * d
  }

  /** `r` lies on the closed segment between `a` and `b`, whichever is smaller. */
  predicate Between(a: real, r: real, b: real)
  {
    (a <= r <= b) || (b <= r <= a)
  }

  /**
   * A non-negative step never overshoots: the result lies between the start and
   * the target, and it is no farther from the target than the start was.
   */
  lemma MoveTowardsNeverOvershoots(n: real, t: real, d: real)
    requires d >= 0.0
    ensures Between(n, MoveTowards(n, t, d), t)
    ensures Abs(t - MoveTowards(n, t, d)) <= Abs(t - n)
    ensures Abs(t - n) > d ==> Abs(t - MoveTowards(n, t, d)) == Abs(t - n) - d
  {
  }

  /** `ease(t, a, b)`: cubic ease-in from `a` (at t = 0) to `b` (at t = 1). */
  function Ease(t: real, a: real, b: real): (r: real)
    ensures t == 0.0 ==> r == a
    ensures t == 1.0 ==> r == b
  {
    var u := t * t * t;
    u * (b - a) + a
  }

  lemma MulMonotone(x: real, y: real, c: real)
    requires x <= y && c >= 0.0
    ensures x * c <= y * c
  {
    assert (y - x) * c >= 0.0;
  }

  lemma CubeInUnit(t: real)
    requires 0.0 <= t <= 1.0
    ensures 0.0 <= t * t * t <= 1.0
  {
    var sq := t * t;
    MulMonotone(0.0, t, t);
    MulMonotone(t, 1.0, t);
    assert 0.0 <= sq <= 1.0;
    MulMonotone(0.0, sq, t);
    MulMonotone(sq, 1.0, t);
    assert sq * t <= 1.0;
  }

  lemma ScaledWithin(u: real, d: real)
    requires 0.0 <= u <= 1.0 && d >= 0.0
    ensures 0.0 <= u * d <= d
  {
    assert (1.0 - u) * d >= 0.0;
    assert u * d >= 0.0;
  }

  /** A fraction in [0, 1] of the way from `a` to `b` stays between them. */
  lemma FractionBetween(u: real, a: real, b: real)
    requires 0.0 <= u <= 1.0
    ensures Between(a, u * (b - a) + a, b)
  {
    var d := b - a;
    var p := u * d;
    if d >= 0.0 {
      ScaledWithin(u, d);
    } else {
      ScaledWithin(u, -d);
      assert u * (-d) == -p;
    }
    assert u * (b - a) + a == p + a;
  }

  /** For a parameter inside [0, 1] the eased value stays between the two endpoints. */
  lemma EaseStaysBetween(t: real, a: real, b: real)
    requires 0.0 <= t <= 1.0
    ensures Between(a, Ease(t, a, b), b)
  {
    CubeInUnit(t);
    FractionBetween(t * t * t, a, b);
  }
}

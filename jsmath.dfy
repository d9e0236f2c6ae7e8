/**
 * The pieces of JavaScript number arithmetic that server.js uses, over exact reals:
 * Math.abs, Math.min, the remainder operator `%`, and the trigonometric functions,
 * which stay uninterpreted.
 */
module JsMath {

  /** Math.abs */
  function Abs(x: real): (r: real)
    ensures 0.0 <= r && (r == x || r == -x)
  {
    if x < 0.0 then -x else x
  }

  /** Math.min of two numbers */
  function Min(x: real, y: real): (r: real)
    ensures r <= x && r <= y && (r == x || r == y)
  {
    if x <= y then x else y
  }

  /** k whole turns of the compass, in degrees. */
  function Turns(k: int): real
  {
    360.0 * k as real
  }

  /** True when `a` is a whole number of turns. */
  ghost predicate WholeTurns(a: real)
  {
    exists k: int :: Turns(k) == a
  }

  /** Rounding toward zero, the quotient JavaScript's `%` is defined with. */
  function Trunc(x: real): (n: int)
    ensures Abs(n as real) <= Abs(x) < Abs(n as real) + 1.0
    ensures 0.0 <= x ==> 0 <= n
    ensures x <= 0.0 ==> n <= 0
  {
    if 0.0 <= x then x.Floor else -((-x).Floor)
  }

  /**
   * JavaScript's `x % 360` on numbers: the remainder of the division truncated
   * toward zero, so it carries the sign of x.
   */
  function Rem360(x: real): (r: real)
    ensures 0.0 <= x ==> 0.0 <= r < 360.0
    ensures x <= 0.0 ==> -360.0 < r <= 0.0
    ensures WholeTurns(x - r)
  {
    var q := Trunc(x / 360.0);
    assert x - (x - Turns(q)) == Turns(q);
    x - Turns(q)
  }

  /**
   * Math.sin, Math.cos and Math.atan2 in the form server.js uses them: sin and cos
   * take degrees (the source converts with `x * Math.PI / 180`), atan2 answers in
   * degrees (the source multiplies by `180 / Math.PI`). They stay uninterpreted;
   * the predicates below name the properties of the true functions a lemma needs.
   */
  datatype Trig = Trig(sin: real -> real, cos: real -> real, atan2: (real, real) -> real)

  /** The cosine lies in [-1, 1]. */
  ghost predicate CosBounded(cos: real -> real)
  {
    forall x :: -1.0 <= cos(x) <= 1.0
  }

  /** The cosine is even. */
  ghost predicate CosEven(cos: real -> real)
  {
    forall x, y :: x + y == 0.0 ==> cos(x) == cos(y)
  }

  /** The cosine repeats after one turn. */
  ghost predicate CosPeriodic(cos: real -> real)
  {
    forall x, y :: y - x == 360.0 ==> cos(x) == cos(y)
  }

  /** Adding any whole number of turns leaves the cosine unchanged. */
  lemma {:induction false} CosWholeTurns(cos: real -> real, x: real, k: int)
    requires CosPeriodic(cos)
    ensures cos(x + Turns(k)) == cos(x)
    decreases if k < 0 then -k else k
  {
    if k > 0 {
      CosWholeTurns(cos, x, k - 1);
      assert (x + Turns(k)) - (x + Turns(k - 1)) == 360.0;
    } else if k < 0 {
      CosWholeTurns(cos, x, k + 1);
      assert (x + Turns(k + 1)) - (x + Turns(k)) == 360.0;
    }
  }
}

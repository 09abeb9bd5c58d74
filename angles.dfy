/**
 * Angle arithmetic shared by the kinematics: the constant PI, the reduction of
 * an angle into (-PI, PI] that the solver writes as atan2(sin x, cos x), numpy's
 * rounding to 7 decimals and numpy's sign function.
 */
module Angles {

  /** numpy's np.pi, written as the decimal literal that it prints as. */
  const PI: real := 3.141592653589793

  /** One whole turn. */
  const TwoPI: real := 2.0 * PI

  function Abs(x: real): real
  {
    if x < 0.0 then -x else x
  }

  /** The least integer not below x. */
  function Ceil(x: real): (n: int)
    ensures (n - 1) as real < x <= n as real
  {
    -((-x).Floor)
  }

  /** The number of whole turns that Wrap removes from x. */
  function Turns(x: real): int
  {
    Ceil((x - PI) / TwoPI)
  }

  /**
   * atan2(sin x, cos x) in exact arithmetic: x moved by whole turns into
   * (-PI, PI].
   */
  function Wrap(x: real): (r: real)
    ensures -PI < r <= PI
  {
    var k := Turns(x);
    var y := (x - PI) / TwoPI;
    assert y * TwoPI == x - PI;
    assert (k - 1) as real < y <= k as real;
    assert TwoPI * (k as real) >= TwoPI * y;
    assert TwoPI * (k as real) < TwoPI * y + TwoPI;
    x - TwoPI * (k as real)
  }

  /** Two angles that differ by a whole number of turns. */
  predicate SameAngle(x: real, y: real)
  {
    ((x - y) / TwoPI).Floor as real == (x - y) / TwoPI
  }

  /**
   * Wrap is characterised by its range: the one value in (-PI, PI] that is x
   * plus a whole number of turns.
   */
  lemma {:induction false} WrapUnique(x: real, k: int)
    requires -PI < x + TwoPI * (k as real) <= PI
    ensures Wrap(x) == x + TwoPI * (k as real)
  {
    var j := -Turns(x);
    assert Wrap(x) == x + TwoPI * (j as real);
    var d := k - j;
    assert TwoPI * (d as real) < TwoPI;
    assert TwoPI * (d as real) > -TwoPI;
    assert (d as real) < 1.0 && (d as real) > -1.0;
    assert d == 0;
  }

  /** Wrap changes x by whole turns only. */
  lemma WrapSameAngle(x: real)
    ensures SameAngle(Wrap(x), x)
  {
    var k := -Turns(x);
    assert Wrap(x) - x == TwoPI * (k as real);
    assert (Wrap(x) - x) / TwoPI == k as real;
  }

  /** A value already in (-PI, PI] is left as it is. */
  lemma WrapIdentity(x: real)
    requires -PI < x <= PI
    ensures Wrap(x) == x
  {
    WrapUnique(x, 0);
  }

  /** Adding a whole turn does not change the wrapped value. */
  lemma WrapPeriodic(x: real)
    ensures Wrap(x + TwoPI) == Wrap(x)
  {
    var k := -Turns(x);
    assert -PI < (x + TwoPI) + TwoPI * ((k - 1) as real) <= PI;
    WrapUnique(x + TwoPI, k - 1);
  }

  /** The wrap of x + PI is PI away from x, modulo whole turns: never x itself. */
  lemma WrapHalfTurnApart(x: real)
    ensures Abs(Wrap(x + PI) - x) >= PI
  {
    var k := -Turns(x + PI);
    assert Wrap(x + PI) - x == PI + TwoPI * (k as real);
    if k >= 0 {
      assert TwoPI * (k as real) >= 0.0;
    } else {
      assert TwoPI * (k as real) <= -TwoPI;
    }
  }

  /** numpy's rint: the nearest integer, ties to the even one. */
  function RoundHalfEven(y: real): (n: int)
    ensures Abs(n as real - y) <= 0.5
    ensures Abs(n as real - y) == 0.5 ==> n % 2 == 0
  {
    var f := y.Floor;
    var d := y - f as real;
    if d < 0.5 then f
    else if d > 0.5 then f + 1
    else if f % 2 == 0 then f
    else f + 1
  }

  /** 10^7, the scale of numpy's round(decimals=7). */
  const Decimals7: real := 10000000.0

  /** numpy's round(x, decimals=7): round-half-even of x * 10^7, scaled back. */
  function Round7(x: real): (r: real)
    ensures Abs(r - x) <= 0.5 / Decimals7
    ensures (r * Decimals7).Floor as real == r * Decimals7
    ensures Abs(r - x) == 0.5 / Decimals7 ==> (r * Decimals7).Floor % 2 == 0
  {
    var n := RoundHalfEven(x * Decimals7);
    var r := n as real / Decimals7;
    assert r * Decimals7 == n as real;
    assert (r * Decimals7).Floor == n;
    assert Abs(r - x) * Decimals7 == Abs(n as real - x * Decimals7) by {
      assert (r - x) * Decimals7 == n as real - x * Decimals7;
    }
    r
  }

  /** numpy's sign: -1, 0 or 1. */
  function Sign(x: real): (s: real)
    ensures s * x == Abs(x)
    ensures s == 1.0 || s == -1.0 || s == 0.0
    ensures s == 0.0 <==> x == 0.0
  {
    if x > 0.0 then 1.0 else if x < 0.0 then -1.0 else 0.0
  }
}

/** The arithmetic helpers, over exact reals: `cmp` with a zero tolerance is the order of the reals. */
module MathUtils {
  import opened Wrappers

  datatype MathError = ZeroTotalWeight | NoRoot

  function Cmp(a: real, b: real): int {
    if a < b then -1 else if a > b then 1 else 0
  }

  function WeightedAverage(v1: real, w1: real, v2: real, w2: real): Result<real, MathError> {
    if w1 + w2 == 0.0 then Err(ZeroTotalWeight) else Ok((v1 * w1 + v2 * w2) / (w1 + w2))
  }

  /** The square root of the platform, as a value: exact and non-negative on non-negative reals. */
  ghost predicate IsSqrt(sqrt: real -> real) {
    forall x :: x >= 0.0 ==> sqrt(x) >= 0.0 && sqrt(x) * sqrt(x) == x
  }

  /** The real roots of a*x^2 + b*x + c, in the order the original lists them. */
  function SolveQuadratic(a: real, b: real, c: real, sqrt: real -> real): seq<real> {
    if a == 0.0 then
      if b == 0.0 then [] else [-c / b]
    else
      var d := b * b - 4.0 * a * c;
      if d < 0.0 then []
      else if d == 0.0 then [-b / 2.0 / a]
      else [(-sqrt(d) - b) / 2.0 / a, (sqrt(d) - b) / 2.0 / a]
  }

  lemma SquareOfRoot(x: real, s: real, d: real)
    requires s * s == d && x * x == d
    ensures x == s || x == -s
  {
    assert (x - s) * (x + s) == 0.0;
  }

  lemma CompleteSquare(a: real, b: real, c: real, x: real)
    ensures (2.0 * a * x + b) * (2.0 * a * x + b) == 4.0 * a * (a * x * x + b * x + c) + (b * b - 4.0 * a * c)
  {
    var y := 2.0 * a * x;
    assert (y + b) * (y + b) == y * y + 2.0 * y * b + b * b;
    assert y * y == 4.0 * a * (a * x * x);
    assert 2.0 * y * b == 4.0 * a * (b * x);
  }

  /** A number is a root of a proper quadratic exactly when the completed square is a square root of
      the discriminant. */
  lemma RootIff(a: real, b: real, c: real, x: real)
    requires a != 0.0
    ensures a * x * x + b * x + c == 0.0 <==> (2.0 * a * x + b) * (2.0 * a * x + b) == b * b - 4.0 * a * c
  {
    CompleteSquare(a, b, c, x);
    var q := a * x * x + b * x + c;
    if 4.0 * a * q == 0.0 {
      assert q == 0.0;
    }
  }

  lemma RootFrom(a: real, b: real, s: real, x: real)
    requires a != 0.0
    ensures x == (s - b) / 2.0 / a <==> 2.0 * a * x + b == s
  {
    var y := (s - b) / 2.0 / a;
    assert y * a == (s - b) / 2.0;
    if 2.0 * a * x + b == s {
      assert (x - y) * a == 0.0;
    }
  }

  /** The solver finds the real roots, all of them and nothing else, unless every coefficient of the
      unknown is zero; then it finds none. */
  lemma {:induction false} SolvesQuadratic(a: real, b: real, c: real, x: real, sqrt: real -> real)
    requires IsSqrt(sqrt)
    ensures if a == 0.0 && b == 0.0 then SolveQuadratic(a, b, c, sqrt) == []
            else x in SolveQuadratic(a, b, c, sqrt) <==> a * x * x + b * x + c == 0.0
  {
    if a != 0.0 {
      ProperRoots(a, b, c, x, sqrt);
    } else if b != 0.0 {
      LinearRoot(b, c, x);
      assert a * x * x == 0.0;
    }
  }

  lemma LinearRoot(b: real, c: real, x: real)
    requires b != 0.0
    ensures x == -c / b <==> b * x + c == 0.0
  {
    var y := -c / b;
    assert y * b == -c;
    if b * x + c == 0.0 {
      assert (x - y) * b == 0.0;
    }
  }

  lemma TwoRoots(a: real, b: real, s: real, x: real)
    requires a != 0.0
    ensures x in [(-s - b) / 2.0 / a, (s - b) / 2.0 / a]
            <==> (2.0 * a * x + b) * (2.0 * a * x + b) == s * s
  {
    RootFrom(a, b, s, x);
    RootFrom(a, b, -s, x);
    var y := 2.0 * a * x + b;
    assert (-s) * (-s) == s * s;
    if y * y == s * s {
      SquareOfRoot(y, s, s * s);
    }
  }

  lemma OneRoot(a: real, b: real, x: real)
    requires a != 0.0
    ensures x == -b / 2.0 / a <==> (2.0 * a * x + b) * (2.0 * a * x + b) == 0.0
  {
    TwoRoots(a, b, 0.0, x);
    assert (-0.0 - b) / 2.0 / a == -b / 2.0 / a;
  }

  lemma SquareNotNegative(y: real)
    ensures y * y >= 0.0
  {
  }

  lemma Listed(a: real, b: real, c: real, sqrt: real -> real)
    requires a != 0.0
    ensures var d := b * b - 4.0 * a * c;
            SolveQuadratic(a, b, c, sqrt)
            == if d < 0.0 then []
               else if d == 0.0 then [-b / 2.0 / a]
               else [(-sqrt(d) - b) / 2.0 / a, (sqrt(d) - b) / 2.0 / a]
  {
  }

  /** The roots that the solver lists when the discriminant is `d`. */
  lemma ListedRoots(a: real, b: real, d: real, x: real, sqrt: real -> real)
    requires IsSqrt(sqrt) && a != 0.0
    ensures (2.0 * a * x + b) * (2.0 * a * x + b) == d
            <==> x in if d < 0.0 then []
                      else if d == 0.0 then [-b / 2.0 / a]
                      else [(-sqrt(d) - b) / 2.0 / a, (sqrt(d) - b) / 2.0 / a]
  {
    if d > 0.0 {
      assert sqrt(d) * sqrt(d) == d;
      TwoRoots(a, b, sqrt(d), x);
    } else if d == 0.0 {
      OneRoot(a, b, x);
    } else {
      SquareNotNegative(2.0 * a * x + b);
    }
  }

  lemma ProperRoots(a: real, b: real, c: real, x: real, sqrt: real -> real)
    requires IsSqrt(sqrt) && a != 0.0
    ensures x in SolveQuadratic(a, b, c, sqrt) <==> a * x * x + b * x + c == 0.0
  {
    hide SolveQuadratic, IsSqrt;
    RootIff(a, b, c, x);
    Listed(a, b, c, sqrt);
    ListedRoots(a, b, b * b - 4.0 * a * c, x, sqrt);
  }

  /** A weighted average exists exactly when the weights do not cancel, whatever their signs, and then
      it carries the moment. */
  lemma WeightedAverageIff(v1: real, w1: real, v2: real, w2: real)
    ensures var r := WeightedAverage(v1, w1, v2, w2);
            if w1 + w2 == 0.0 then r == Err(ZeroTotalWeight)
            else r.Ok? && r.value * (w1 + w2) == v1 * w1 + v2 * w2
  {
  }

  /** A weighted average with non-negative weights lies between the values, and carries their
      moment. */
  lemma WeightedAverageBetween(v1: real, w1: real, v2: real, w2: real)
    requires w1 >= 0.0 && w2 >= 0.0 && w1 + w2 > 0.0 && v1 <= v2
    ensures WeightedAverage(v1, w1, v2, w2).Ok?
    ensures v1 <= WeightedAverage(v1, w1, v2, w2).value <= v2
    ensures WeightedAverage(v1, w1, v2, w2).value * (w1 + w2) == v1 * w1 + v2 * w2
  {
    var w := w1 + w2;
    var m := v1 * w1 + v2 * w2;
    assert v1 * w <= m by {
      assert m - v1 * w == (v2 - v1) * w2;
    }
    assert m <= v2 * w by {
      assert v2 * w - m == (v2 - v1) * w1;
    }
    DivideBetween(m, w, v1, v2);
  }

  lemma CancelLe(x: real, y: real, w: real)
    requires w > 0.0 && x * w <= y * w
    ensures x <= y
  {
  }

  lemma DivideBetween(m: real, w: real, lo: real, hi: real)
    requires w > 0.0 && lo * w <= m <= hi * w
    ensures lo <= m / w <= hi
    ensures m / w * w == m
  {
    var q := m / w;
    assert q * w == m;
    CancelLe(lo, q, w);
    CancelLe(q, hi, w);
  }
}

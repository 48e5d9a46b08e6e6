/** ml/task_workers.py: the trend line of _linear_regression is the least-squares line, over exact reals. */
module LeastSquares {
  import opened TaskWorkers
  import opened SigmaRule

  // ---- vectors ----

  function Products(s: seq<real>, t: seq<real>): (p: seq<real>)
    requires |s| == |t|
    ensures |p| == |s| && forall i :: 0 <= i < |s| ==> p[i] == s[i] * t[i]
  {
    seq(|s|, i requires 0 <= i < |s| => s[i] * t[i])
  }

  function Dot(s: seq<real>, t: seq<real>): real
    requires |s| == |t|
  {
    Sum(Products(s, t))
  }

  /** s + c * t */
  function Combine(s: seq<real>, c: real, t: seq<real>): (p: seq<real>)
    requires |s| == |t|
    ensures |p| == |s| && forall i :: 0 <= i < |s| ==> p[i] == s[i] + c * t[i]
  {
    seq(|s|, i requires 0 <= i < |s| => s[i] + c * t[i])
  }

  /** 0, 1, ..., n - 1 */
  function Positions(n: nat): (s: seq<real>)
    ensures |s| == n && forall i :: 0 <= i < n ==> s[i] == i as real
  {
    seq(n, i => i as real)
  }

  function Ones(n: nat): (s: seq<real>)
    ensures |s| == n && forall i :: 0 <= i < n ==> s[i] == 1.0
  {
    seq(n, _ => 1.0)
  }

  // ---- the worker ----

  function Denominator(n: real, sumX: real, sumXX: real): real {
    n * sumXX - sumX * sumX
  }

  /** _linear_regression: slope and intercept over the positions 0, 1, ... */
  function LinearRegression(values: seq<real>): (real, real) {
    if |values| < 2 then (0.0, if values == [] then 0.0 else values[0])
    else
      var xs := Positions(|values|);
      Fit(|values| as real, Sum(xs), Dot(xs, xs), Sum(values), Dot(xs, values))
  }

  /** The rest of _linear_regression, from the five sums on. */
  function Fit(n: real, sumX: real, sumXX: real, sumY: real, sumXY: real): (real, real)
    requires n > 0.0
  {
    var denom := Denominator(n, sumX, sumXX);
    if denom == 0.0 then (0.0, sumY / n)
    else
      var slope := (n * sumXY - sumX * sumY) / denom;
      (slope, (sumY - slope * sumX) / n)
  }

  /** The points of the line a * x + b. */
  function Line(n: nat, a: real, b: real): (s: seq<real>)
    ensures |s| == n && forall i :: 0 <= i < n ==> s[i] == a * i as real + b
  {
    seq(n, i => a * i as real + b)
  }

  function Residuals(values: seq<real>, a: real, b: real): (s: seq<real>)
    ensures |s| == |values| && forall i :: 0 <= i < |s| ==> s[i] == values[i] - (a * i as real + b)
  {
    seq(|values|, i requires 0 <= i < |values| => values[i] - (a * i as real + b))
  }

  /** The sum of the squared residuals of the line a * x + b. */
  function Ssr(values: seq<real>, a: real, b: real): real {
    Dot(Residuals(values, a, b), Residuals(values, a, b))
  }

  // ---- the dot product is bilinear, symmetric and positive ----

  ghost predicate Combined(p: real, q: real, c: real, r: real) {
    p == q + c * r
  }

  lemma {:induction false} SumCombine(p: seq<real>, q: seq<real>, c: real, r: seq<real>)
    requires |p| == |q| == |r| && forall i :: 0 <= i < |p| ==> Combined(p[i], q[i], c, r[i])
    ensures Combined(Sum(p), Sum(q), c, Sum(r))
  {
    if p != [] {
      var n := |p| - 1;
      SumCombine(p[..n], q[..n], c, r[..n]);
      CombinedSum(Sum(p[..n]), Sum(q[..n]), c, Sum(r[..n]), p[n], q[n], r[n]);
    }
  }

  lemma CombinedSum(p: real, q: real, c: real, r: real, p': real, q': real, r': real)
    requires Combined(p, q, c, r) && Combined(p', q', c, r')
    ensures Combined(p + p', q + q', c, r + r')
  {
    assert c * (r + r') == c * r + c * r';
  }

  lemma DotCombine(s: seq<real>, c: real, t: seq<real>, v: seq<real>)
    requires |s| == |t| == |v|
    ensures Combined(Dot(Combine(s, c, t), v), Dot(s, v), c, Dot(t, v))
  {
    var p, q, r := Products(Combine(s, c, t), v), Products(s, v), Products(t, v);
    forall i | 0 <= i < |s|
      ensures Combined(p[i], q[i], c, r[i])
    {
      ProductCombined(s[i], c, t[i], v[i]);
    }
    SumCombine(p, q, c, r);
  }

  lemma ProductCombined(s: real, c: real, t: real, v: real)
    ensures Combined((s + c * t) * v, s * v, c, t * v)
  {
  }

  lemma DotSymmetric(s: seq<real>, t: seq<real>)
    requires |s| == |t|
    ensures Dot(s, t) == Dot(t, s)
  {
    assert Products(s, t) == Products(t, s);
  }

  lemma DotOnes(s: seq<real>)
    ensures Dot(s, Ones(|s|)) == Sum(s)
  {
    assert Products(s, Ones(|s|)) == s;
  }

  lemma {:induction false} SumOnes(n: nat)
    ensures Sum(Ones(n)) == n as real
  {
    if n > 0 {
      SumOnes(n - 1);
      assert Ones(n)[..n - 1] == Ones(n - 1);
    }
  }

  lemma ProductsPrefix(s: seq<real>, n: nat)
    requires n <= |s|
    ensures Products(s, s)[..n] == Products(s[..n], s[..n])
  {
    forall i | 0 <= i < n
      ensures Products(s, s)[..n][i] == Products(s[..n], s[..n])[i]
    {
      assert s[..n][i] == s[i];
    }
  }

  /** total is part plus the square of x. */
  ghost predicate PlusSquare(total: real, part: real, x: real) {
    total == part + x * x
  }

  lemma DotLast(s: seq<real>)
    requires s != []
    ensures var n := |s| - 1; PlusSquare(Dot(s, s), Dot(s[..n], s[..n]), s[n])
  {
    ProductsPrefix(s, |s| - 1);
  }

  lemma {:induction false} DotPositive(s: seq<real>)
    ensures Dot(s, s) >= 0.0
  {
    if s != [] {
      var n := |s| - 1;
      DotPositive(s[..n]);
      DotLast(s);
      SquareNotNegative(s[n]);
    }
  }

  lemma {:induction false} DotZeroOnly(s: seq<real>, i: nat)
    requires Dot(s, s) == 0.0 && i < |s|
    ensures s[i] == 0.0
  {
    var n := |s| - 1;
    DotLast(s);
    DotPositive(s[..n]);
    BothZero(Dot(s, s), Dot(s[..n], s[..n]), s[n]);
    if i < n {
      DotZeroOnly(s[..n], i);
    }
  }

  lemma BothZero(total: real, part: real, x: real)
    requires PlusSquare(total, part, x) && total == 0.0 && part >= 0.0
    ensures part == 0.0 && x == 0.0
  {
    SquareNotNegative(x);
    NoSquareNoValue(x, total - part);
  }

  lemma NoSquareNoValue(x: real, square: real)
    requires square == x * x && square <= 0.0
    ensures x == 0.0
  {
    if x != 0.0 {
      SameSign(x, x, square);
    }
  }

  lemma SameSign(x: real, y: real, product: real)
    requires (x < 0.0 && y < 0.0) || (x > 0.0 && y > 0.0)
    requires product == x * y
    ensures product > 0.0
  {
  }

  // ---- the denominator ----

  lemma {:induction false} PositionSum(n: nat)
    ensures 2.0 * Sum(Positions(n)) == n as real * (n as real - 1.0)
  {
    if n > 0 {
      PositionSum(n - 1);
      assert Positions(n)[..n - 1] == Positions(n - 1);
    }
  }

  /** The sum of the squares below n, in closed form. */
  ghost predicate SquarePyramid(n: real, squares: real) {
    6.0 * squares == (n * (n - 1.0)) * (2.0 * n - 1.0)
  }

  lemma {:induction false} PositionSquares(n: nat)
    ensures SquarePyramid(n as real, Dot(Positions(n), Positions(n)))
  {
    if n > 0 {
      PositionSquares(n - 1);
      DotLast(Positions(n));
      assert Positions(n)[..n - 1] == Positions(n - 1);
      SquareStep(Dot(Positions(n - 1), Positions(n - 1)), Dot(Positions(n), Positions(n)), (n - 1) as real);
    }
  }

  lemma SquareStep(part: real, total: real, m: real)
    requires SquarePyramid(m, part) && PlusSquare(total, part, m)
    ensures SquarePyramid(m + 1.0, total)
  {
    assert (m * (m - 1.0)) * (2.0 * m - 1.0) == 2.0 * (m * m * m) - 3.0 * (m * m) + m;
    assert ((m + 1.0) * m) * (2.0 * m + 1.0) == 2.0 * (m * m * m) + 3.0 * (m * m) + m;
  }

  /** denom == n^2 (n^2 - 1) / 12, so from two values on the zero-denominator branch is dead. */
  lemma DenominatorClosedForm(n: nat)
    ensures var denom := Denominator(n as real, Sum(Positions(n)), Dot(Positions(n), Positions(n)));
            && 12.0 * denom == (n as real * n as real) * (n as real * n as real - 1.0)
            && (n >= 2 ==> denom > 0.0)
  {
    PositionSum(n);
    PositionSquares(n);
    DenominatorArithmetic(n as real, Sum(Positions(n)), Dot(Positions(n), Positions(n)));
    if n >= 2 {
      AboveOne(n as real);
    }
  }

  lemma AboveOne(n: real)
    requires n >= 2.0
    ensures (n * n) * (n * n - 1.0) > 0.0
  {
    assert n * n > 1.0;
  }

  lemma DenominatorArithmetic(n: real, x: real, xx: real)
    requires 2.0 * x == n * (n - 1.0) && SquarePyramid(n, xx)
    ensures 12.0 * Denominator(n, x, xx) == (n * n) * (n * n - 1.0)
  {
    var p := n * (n - 1.0);
    assert 12.0 * (n * xx) == 2.0 * (n * (p * (2.0 * n - 1.0)));
    assert 4.0 * (x * x) == p * p;
    assert 2.0 * (n * (2.0 * n - 1.0)) - 3.0 * p == n * n + n;
    assert 2.0 * (n * (p * (2.0 * n - 1.0))) == p * (2.0 * (n * (2.0 * n - 1.0)));
    assert p * (3.0 * p) == 3.0 * (p * p);
    assert 12.0 * (n * xx - x * x) == p * (n * n + n);
    assert p == n * n - n;
    assert (n * n - n) * (n * n + n) == (n * n) * (n * n) - n * n;
  }

  // ---- the normal equations ----

  /** r is what a line with slope a and intercept b leaves of y. */
  ghost predicate Leaves(r: real, y: real, a: real, x: real, b: real, one: real) {
    r == y - a * x - b * one
  }

  /** Any vector against the residuals. */
  lemma ResidualsDot(values: seq<real>, n: nat, a: real, b: real, v: seq<real>)
    requires |values| == n == |v|
    ensures Leaves(Dot(Residuals(values, a, b), v), Dot(values, v), a, Dot(Positions(n), v), b, Dot(Ones(n), v))
  {
    var half := Combine(values, -a, Positions(n));
    ResidualsCombined(values, n, a, b);
    DotCombine(values, -a, Positions(n), v);
    DotCombine(half, -b, Ones(n), v);
    TwiceCombined(Dot(Residuals(values, a, b), v), Dot(half, v), Dot(values, v), a, Dot(Positions(n), v), b,
                  Dot(Ones(n), v));
  }

  lemma ResidualsCombined(values: seq<real>, n: nat, a: real, b: real)
    requires |values| == n
    ensures Residuals(values, a, b) == Combine(Combine(values, -a, Positions(n)), -b, Ones(n))
  {
    var half := Combine(values, -a, Positions(n));
    forall i | 0 <= i < n
      ensures Residuals(values, a, b)[i] == Combine(half, -b, Ones(n))[i]
    {
      assert half[i] == values[i] - a * i as real;
    }
  }

  lemma TwiceCombined(r: real, half: real, y: real, a: real, x: real, b: real, one: real)
    requires Combined(half, y, -a, x) && Combined(r, half, -b, one)
    ensures Leaves(r, y, a, x, b, one)
  {
  }

  /** The equations slope and intercept solve. */
  ghost predicate Fitted(n: real, x: real, xx: real, y: real, xy: real, a: real, b: real) {
    Denominator(n, x, xx) * a == n * xy - x * y && n * b == y - a * x
  }

  lemma FitIsFitted(n: real, x: real, xx: real, y: real, xy: real)
    requires n > 0.0 && Denominator(n, x, xx) > 0.0
    ensures var (a, b) := Fit(n, x, xx, y, xy); Fitted(n, x, xx, y, xy, a, b)
  {
    var (a, b) := Fit(n, x, xx, y, xy);
    Quotient(n * xy - x * y, Denominator(n, x, xx));
    Quotient(y - a * x, n);
  }

  lemma Solve(n: real, x: real, xx: real, y: real, xy: real, a: real, b: real, r: real, w: real)
    requires n > 0.0 && Fitted(n, x, xx, y, xy, a, b)
    requires Leaves(r, y, a, x, b, n) && Leaves(w, xy, a, xx, b, x)
    ensures r == 0.0 && w == 0.0
  {
    assert n * w == n * xy - n * (a * xx) - (n * b) * x;
    assert (y - a * x) * x == x * y - a * (x * x);
    assert (n * xx - x * x) * a == n * (a * xx) - a * (x * x);
    assert n * w == 0.0;
  }

  /** The residuals of the fitted line sum to zero, and so do their products with the positions. */
  lemma NormalEquations(values: seq<real>, n: nat, a: real, b: real)
    requires |values| == n >= 2 && (a, b) == LinearRegression(values)
    ensures Dot(Residuals(values, a, b), Ones(n)) == 0.0
    ensures Dot(Residuals(values, a, b), Positions(n)) == 0.0
  {
    DenominatorClosedForm(n);
    BasisDots(values, n);
    ResidualsDot(values, n, a, b, Ones(n));
    ResidualsDot(values, n, a, b, Positions(n));
    FitIsFitted(n as real, Sum(Positions(n)), Dot(Positions(n), Positions(n)), Sum(values), Dot(Positions(n), values));
    Solve(n as real, Sum(Positions(n)), Dot(Positions(n), Positions(n)), Sum(values), Dot(Positions(n), values), a, b,
          Dot(Residuals(values, a, b), Ones(n)), Dot(Residuals(values, a, b), Positions(n)));
  }

  lemma BasisDots(values: seq<real>, n: nat)
    requires |values| == n
    ensures Dot(values, Ones(n)) == Sum(values)
    ensures Dot(Positions(n), Ones(n)) == Dot(Ones(n), Positions(n)) == Sum(Positions(n))
    ensures Dot(Ones(n), Ones(n)) == n as real
    ensures Dot(values, Positions(n)) == Dot(Positions(n), values)
  {
    DotOnes(values);
    DotOnes(Positions(n));
    DotOnes(Ones(n));
    SumOnes(n);
    DotSymmetric(Ones(n), Positions(n));
    DotSymmetric(values, Positions(n));
  }

  // ---- the main result ----

  lemma LineDot(n: nat, da: real, db: real, v: seq<real>)
    requires |v| == n && Dot(v, Positions(n)) == 0.0 && Dot(v, Ones(n)) == 0.0
    ensures Dot(Line(n, da, db), v) == 0.0
  {
    var zero := Line(n, 0.0, 0.0);
    var half := Combine(zero, da, Positions(n));
    assert Line(n, da, db) == Combine(half, db, Ones(n)) by {
      forall i | 0 <= i < n
        ensures Line(n, da, db)[i] == Combine(half, db, Ones(n))[i]
      {
        assert half[i] == da * i as real;
      }
    }
    DotCombine(zero, da, Positions(n), v);
    DotCombine(half, db, Ones(n), v);
    DotSymmetric(Positions(n), v);
    DotSymmetric(Ones(n), v);
    DotZero(zero, v);
  }

  lemma DotZero(zero: seq<real>, v: seq<real>)
    requires |zero| == |v| && forall i :: 0 <= i < |v| ==> zero[i] == 0.0
    ensures Dot(zero, v) == 0.0
  {
    SumCombine(Products(zero, v), Products(zero, v), -1.0, Products(zero, v));
  }

  /** How much worse any other line is: exactly the squared length of the difference. */
  lemma SsrDecomposition(values: seq<real>, a: real, b: real)
    requires |values| >= 2
    ensures var (a0, b0) := LinearRegression(values);
            var e := Line(|values|, a - a0, b - b0);
            Ssr(values, a, b) == Ssr(values, a0, b0) + Dot(e, e)
  {
    var (a0, b0) := LinearRegression(values);
    var n := |values|;
    var e, r, moved := Line(n, a - a0, b - b0), Residuals(values, a0, b0), Residuals(values, a, b);
    ResidualsMoved(values, a0, b0, a, b);
    NormalEquations(values, n, a0, b0);
    LineDot(n, a - a0, b - b0, r);
    DotCombine(r, -1.0, e, moved);
    DotSymmetric(r, moved);
    DotSymmetric(e, moved);
    DotCombine(r, -1.0, e, r);
    DotCombine(r, -1.0, e, e);
    DotSymmetric(r, e);
  }

  lemma ResidualsMoved(values: seq<real>, a0: real, b0: real, a: real, b: real)
    ensures Residuals(values, a, b) == Combine(Residuals(values, a0, b0), -1.0, Line(|values|, a - a0, b - b0))
  {
    forall i | 0 <= i < |values|
      ensures values[i] - (a * i as real + b)
           == values[i] - (a0 * i as real + b0) - ((a - a0) * i as real + (b - b0))
    {
      assert (a - a0) * i as real == a * i as real - a0 * i as real;
    }
  }

  /** For two values or more the result is the only line with the least sum of squared residuals. */
  lemma LeastSquaresOptimal(values: seq<real>, a: real, b: real)
    requires |values| >= 2
    ensures var (a0, b0) := LinearRegression(values);
            && Ssr(values, a0, b0) <= Ssr(values, a, b)
            && (Ssr(values, a0, b0) == Ssr(values, a, b) ==> (a, b) == (a0, b0))
  {
    var (a0, b0) := LinearRegression(values);
    SsrDecomposition(values, a, b);
    var e := Line(|values|, a - a0, b - b0);
    DotPositive(e);
    if Dot(e, e) == 0.0 {
      DotZeroOnly(e, 0);
      DotZeroOnly(e, 1);
    }
  }

  /** A single value is continued as it is, by a line through it. */
  lemma SingleValueLine(y: real)
    ensures var (a, b) := LinearRegression([y]); a == 0.0 && Residuals([y], a, b) == [0.0]
  {
  }
}

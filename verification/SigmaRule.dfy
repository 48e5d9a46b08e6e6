/** How far a value can lie from the mean of a window it belongs to: Samuelson's inequality, and the
    window lengths from which the sigma rule can flag such a value at all. */
module SigmaRule {
  import opened Wrappers
  import opened TaskWorkers

  function SumOfSquares(s: seq<real>): real {
    SquaredDeviations(s, 0.0)
  }

  lemma NonNegativeFactor(n: real, gap: real)
    requires n > 0.0 && n * gap >= 0.0
    ensures gap >= 0.0
  {
  }

  /** The Cauchy-Schwarz inequality for n numbers with this sum and sum of squares. */
  ghost predicate CauchyBound(n: real, total: real, squares: real) {
    total * total <= n * squares
  }

  /** One step of the Cauchy-Schwarz inequality. */
  lemma CauchyStep(n: real, total: real, squares: real, a: real)
    requires n >= 1.0 && CauchyBound(n, total, squares)
    ensures CauchyBound(n + 1.0, total + a, squares + a * a)
  {
    var gap := n * (a * a) - 2.0 * (a * total) + squares;
    var b := n * a - total;
    SquareNotNegative(b);
    assert b * b == n * (n * (a * a)) - 2.0 * (n * (a * total)) + total * total;
    assert n * gap == n * (n * (a * a)) - 2.0 * (n * (a * total)) + n * squares;
    NonNegativeFactor(n, gap);
    assert (n + 1.0) * (squares + a * a) - (total + a) * (total + a) == gap + (n * squares - total * total);
  }

  lemma SingleSums(s: seq<real>)
    requires |s| == 1
    ensures Sum(s) == s[0]
    ensures SumOfSquares(s) == s[0] * s[0]
    ensures SquaredDeviations(s, s[0]) == 0.0
  {
    assert s[..0] == [];
    assert Sum(s[..0]) == 0.0;
    assert SquaredDeviations(s[..0], 0.0) == 0.0 && SquaredDeviations(s[..0], s[0]) == 0.0;
    assert s[0] - 0.0 == s[0];
  }

  /** (sum s)^2 <= |s| * sum of squares */
  lemma {:induction false} CauchySchwarz(s: seq<real>)
    ensures CauchyBound(|s| as real, Sum(s), SumOfSquares(s))
  {
    if |s| == 1 {
      SingleSums(s);
    } else if |s| > 1 {
      CauchySchwarz(s[..|s| - 1]);
      CauchyStep((|s| - 1) as real, Sum(s[..|s| - 1]), SumOfSquares(s[..|s| - 1]), s[|s| - 1]);
    }
  }

  /** The deviations from `mean`. */
  function Shifted(s: seq<real>, mean: real): (d: seq<real>)
    ensures |d| == |s| && forall i :: 0 <= i < |s| ==> d[i] == s[i] - mean
  {
    if s == [] then [] else Shifted(s[..|s| - 1], mean) + [s[|s| - 1] - mean]
  }

  /** The sum of n numbers after each was lowered by `mean`. */
  ghost predicate Lowered(sum: real, total: real, n: real, mean: real) {
    sum == total - n * mean
  }

  lemma LoweredStep(sum: real, total: real, n: real, mean: real, x: real)
    requires Lowered(sum, total, n, mean)
    ensures Lowered(sum + (x - mean), total + x, n + 1.0, mean)
  {
    assert (n + 1.0) * mean == n * mean + mean;
  }

  lemma {:induction false} ShiftedSum(s: seq<real>, n: nat, mean: real)
    requires |s| == n
    ensures Lowered(Sum(Shifted(s, mean)), Sum(s), n as real, mean)
  {
    if n > 0 {
      var d := Shifted(s, mean);
      ShiftedSum(s[..n - 1], n - 1, mean);
      LoweredStep(Sum(Shifted(s[..n - 1], mean)), Sum(s[..n - 1]), (n - 1) as real, mean, s[n - 1]);
      assert d[..n - 1] == Shifted(s[..n - 1], mean);
    }
  }

  lemma {:induction false} ShiftedSquares(s: seq<real>, n: nat, mean: real)
    requires |s| == n
    ensures SumOfSquares(Shifted(s, mean)) == SquaredDeviations(s, mean)
  {
    if n > 0 {
      var d := Shifted(s, mean);
      ShiftedSquares(s[..n - 1], n - 1, mean);
      assert d[..n - 1] == Shifted(s[..n - 1], mean);
      assert d[n - 1] - 0.0 == s[n - 1] - mean;
    }
  }

  ghost predicate WithoutSquare(rest: real, total: real, x: real) {
    rest == total - x * x
  }

  function WithoutAt(s: seq<real>, k: nat): (rest: seq<real>)
    requires k < |s|
    ensures |rest| == |s| - 1
  {
    s[..k] + s[k + 1..]
  }

  /** Leaving out a member before the last one leaves it out of the front. */
  lemma WithoutFront(s: seq<real>, k: nat, n: nat)
    requires k < n && |s| == n + 1
    ensures WithoutAt(s, k)[..n - 1] == WithoutAt(s[..n], k) && WithoutAt(s, k)[n - 1] == s[n]
  {
  }

  lemma {:induction false} SumWithout(s: seq<real>, k: nat)
    requires k < |s|
    ensures Sum(WithoutAt(s, k)) == Sum(s) - s[k]
  {
    var n := |s| - 1;
    if k == n {
      assert WithoutAt(s, k) == s[..n];
    } else {
      SumWithout(s[..n], k);
      WithoutFront(s, k, n);
    }
  }

  lemma SquareAdded(rest: real, total: real, x: real, y: real)
    requires WithoutSquare(rest, total, x)
    ensures WithoutSquare(rest + (y - 0.0) * (y - 0.0), total + (y - 0.0) * (y - 0.0), x)
  {
  }

  lemma SquareLeft(total: real, x: real)
    ensures WithoutSquare(total, total + (x - 0.0) * (x - 0.0), x)
  {
    assert x - 0.0 == x;
  }

  lemma {:induction false} SquaresWithout(s: seq<real>, k: nat)
    requires k < |s|
    ensures WithoutSquare(SumOfSquares(WithoutAt(s, k)), SumOfSquares(s), s[k])
  {
    var n := |s| - 1;
    if k == n {
      assert WithoutAt(s, k) == s[..n];
      SquareLeft(SumOfSquares(s[..n]), s[n]);
    } else {
      SquaresWithout(s[..n], k);
      WithoutFront(s, k, n);
      SquareAdded(SumOfSquares(WithoutAt(s[..n], k)), SumOfSquares(s[..n]), s[k], s[n]);
    }
  }

  /** d among n numbers that sum to zero: the others sum to -d, so their squares are bounded below. */
  ghost predicate WithinShare(n: real, d: real, total: real) {
    d * d <= (n - 1.0) * (total - d * d)
  }

  lemma MemberOfZeroSum(ds: seq<real>, k: nat)
    requires k < |ds| && Sum(ds) == 0.0
    ensures WithinShare(|ds| as real, ds[k], SumOfSquares(ds))
  {
    var rest := WithoutAt(ds, k);
    SumWithout(ds, k);
    SquaresWithout(ds, k);
    CauchySchwarz(rest);
    OthersBound(|ds| as real, Sum(rest), SumOfSquares(rest), ds[k], SumOfSquares(ds));
  }

  lemma OthersBound(n: real, sum: real, squares: real, d: real, total: real)
    requires CauchyBound(n - 1.0, sum, squares) && sum == -d && WithoutSquare(squares, total, d)
    ensures WithinShare(n, d, total)
  {
    assert sum * sum == d * d;
  }

  lemma ScaleDown(n: real, d: real, total: real, q: real)
    requires n >= 1.0 && n * q == total && WithinShare(n, d, total)
    ensures d * d <= (n - 1.0) * q
  {
    var d2 := d * d;
    assert n * ((n - 1.0) * q - d2) == (n - 1.0) * (total - d2) - d2;
    SquareNotNegative(d);
    NonNegativeFactor(n, (n - 1.0) * q - d2);
  }

  lemma Quotient(a: real, n: real)
    requires n > 0.0
    ensures n * (a / n) == a
  {
  }

  lemma MeanTimesLength(values: seq<real>)
    requires values != []
    ensures |values| as real * Mean(values) == Sum(values)
  {
    Quotient(Sum(values), |values| as real);
  }

  /** |s| times the variance is the sum of the squared deviations, also for a single value. */
  lemma VarianceTimesLength(values: seq<real>)
    requires values != []
    ensures |values| as real * Variance(values) == SquaredDeviations(values, Mean(values))
  {
    if |values| == 1 {
      SingleSums(values);
      assert Mean(values) == values[0];
    } else {
      Quotient(SquaredDeviations(values, Mean(values)), |values| as real);
    }
  }

  lemma MemberDeviation(values: seq<real>, k: nat, mean: real)
    requires k < |values| && Sum(values) == |values| as real * mean
    ensures WithinShare(|values| as real, values[k] - mean, SquaredDeviations(values, mean))
  {
    ShiftedSum(values, |values|, mean);
    ShiftedSquares(values, |values|, mean);
    MemberOfZeroSum(Shifted(values, mean), k);
  }

  /** Samuelson's inequality: a member of a window of n values deviates from the mean by at most
      sqrt(n - 1) standard deviations. */
  lemma Samuelson(values: seq<real>, k: nat)
    requires k < |values|
    ensures var d := values[k] - Mean(values);
            d * d <= (|values| - 1) as real * Variance(values)
  {
    MeanTimesLength(values);
    MemberDeviation(values, k, Mean(values));
    VarianceTimesLength(values);
    ScaleDown(|values| as real, values[k] - Mean(values), SquaredDeviations(values, Mean(values)), Variance(values));
  }

  lemma Compare(a: real, b: real, c: real)
    requires c > 0.0
    ensures a > b <==> a * c > b * c
  {
    assert a * c - b * c == (a - b) * c;
  }

  lemma CompareSquares(a: real, b: real)
    requires a >= 0.0 && b >= 0.0
    ensures a > b <==> a * a > b * b
  {
    assert a * a - b * b == (a - b) * (a + b);
    if a + b > 0.0 {
      Compare(a, b, a + b);
      assert a * (a + b) - b * (a + b) == a * a - b * b;
    }
  }

  /** Comparing a z-score with a threshold, without the root. */
  lemma ZScoreSquared(d: real, std: real, threshold: real)
    requires std > 0.0 && threshold >= 0.0
    ensures Abs(d) / std > threshold <==> d * d > (threshold * threshold) * (std * std)
    ensures Abs(d) / std > threshold <==> Abs(d) > threshold * std
  {
    var a, b := Abs(d), threshold * std;
    Compare(a / std, threshold, std);
    assert (a / std) * std == a;
    CompareSquares(a, b);
    assert a * a == d * d;
    assert b * b == (threshold * threshold) * (std * std);
  }

  lemma ScaledUp(a: real, b: real, y: real)
    requires a <= b && y >= 0.0
    ensures a * y <= b * y
  {
  }

  lemma BelowThreshold(d: real, std: real, y: real, n: real, t: real)
    requires std > 0.0 && t >= 0.0 && y == std * std && d * d <= n * y && n <= t * t
    ensures !(Abs(d) / std > t)
    ensures Abs(d) <= t * std
  {
    SquareNotNegative(std);
    ScaledUp(n, t * t, y);
    ZScoreSquared(d, std, t);
  }

  /** A member of a window of at most t^2 + 1 values is within t standard deviations of the mean. */
  lemma WithinThreshold(s: Stats, values: seq<real>, k: nat, t: real)
    requires Describes(s, values) && k < |values| && t >= 0.0 && (|values| - 1) as real <= t * t && s.std > 0.0
    ensures !(Abs(values[k] - s.mean) / s.std > t)
    ensures Abs(values[k] - s.mean) <= t * s.std
  {
    Samuelson(values, k);
    BelowThreshold(values[k] - s.mean, s.std, Variance(values), (|values| - 1) as real, t);
  }

  /** The sigma rule on a value that is itself among the n window values of its field: never flagged for
      n <= 7, never HIGH for n <= 10, never CRITICAL for n <= 17, never changed by the clip for n <= 10. */
  lemma WindowMemberBounds(s: Stats, values: seq<real>, k: nat)
    requires Describes(s, values) && k < |values|
    ensures |values| <= 7 ==> Judge(s, values[k]) == None
    ensures |values| <= 10 ==> Judge(s, values[k]) in {None, Some(Medium)}
    ensures |values| <= 17 ==> Judge(s, values[k]) != Some(Critical)
    ensures |values| <= 10 ==> Clip(s, values[k]) == values[k]
  {
    if s.std > 0.0 {
      if |values| <= 7 { WithinThreshold(s, values, k, 2.5); }
      if |values| <= 10 { WithinThreshold(s, values, k, 3.0); }
      if |values| <= 17 { WithinThreshold(s, values, k, 4.0); }
    }
  }

  // ---- the bounds are sharp: one spike among zeros ----

  function Zeros(n: nat): (s: seq<real>)
    ensures |s| == n && forall i :: 0 <= i < n ==> s[i] == 0.0
  {
    seq(n, _ => 0.0)
  }

  /** n - 1 zeros and a 1 */
  function Spike(n: nat): (s: seq<real>)
    requires n > 0
    ensures |s| == n && s[n - 1] == 1.0
  {
    Zeros(n - 1) + [1.0]
  }

  lemma {:induction false} ZeroSums(n: nat, mean: real)
    ensures Sum(Zeros(n)) == 0.0
    ensures SquaredDeviations(Zeros(n), mean) == n as real * (mean * mean)
  {
    if n > 0 {
      ZeroSums(n - 1, mean);
      assert Zeros(n)[..n - 1] == Zeros(n - 1);
      assert (0.0 - mean) * (0.0 - mean) == mean * mean;
      assert n as real * (mean * mean) == (n - 1) as real * (mean * mean) + mean * mean;
    }
  }

  /** The spike attains Samuelson's bound. */
  lemma SpikeStats(n: nat)
    requires n > 1
    ensures Mean(Spike(n)) == 1.0 / n as real
    ensures Variance(Spike(n)) > 0.0
    ensures var d := 1.0 - Mean(Spike(n)); d * d == (n - 1) as real * Variance(Spike(n))
  {
    var m := 1.0 / n as real;
    assert Spike(n)[..n - 1] == Zeros(n - 1);
    ZeroSums(n - 1, m);
    assert Sum(Spike(n)) == 1.0;
    SpikeArithmetic(n as real, m);
  }

  lemma SpikeArithmetic(n: real, m: real)
    requires n >= 2.0 && m == 1.0 / n
    ensures ((n - 1.0) * (m * m) + (1.0 - m) * (1.0 - m)) / n > 0.0
    ensures (1.0 - m) * (1.0 - m) == (n - 1.0) * (((n - 1.0) * (m * m) + (1.0 - m) * (1.0 - m)) / n)
  {
    assert n * m == 1.0;
    var total := (n - 1.0) * (m * m) + (1.0 - m) * (1.0 - m);
    assert n * (m * m) == m;
    assert total == 1.0 - m;
    var v := total / n;
    assert v == m * (1.0 - m);
    assert (n - 1.0) * v == (n * m - m) * (1.0 - m);
  }

  /** The spike is judged by comparing n - 1 with the squared threshold. */
  lemma SpikeBeyond(n: nat, sqrt: real -> real, t: real)
    requires n > 1 && IsSqrt(sqrt) && t >= 0.0
    ensures var s := StatsFor(Spike(n), sqrt);
            && s.std > 0.0
            && (Abs(1.0 - s.mean) / s.std > t <==> (n - 1) as real > t * t)
            && (Abs(1.0 - s.mean) > t * s.std <==> (n - 1) as real > t * t)
  {
    var s := StatsFor(Spike(n), sqrt);
    StatsForDescribes(Spike(n), sqrt);
    SpikeStats(n);
    var d, y := 1.0 - s.mean, s.std * s.std;
    assert s.std > 0.0;
    ZScoreSquared(d, s.std, t);
    Compare((n - 1) as real, t * t, y);
  }

  /** Some window of n values has a member with this verdict. */
  ghost predicate Reachable(n: nat, sqrt: real -> real, verdicts: set<Severity>) {
    exists values: seq<real>, k: nat ::
      |values| == n && k < n && exists v :: v in verdicts && Judge(StatsFor(values, sqrt), values[k]) == Some(v)
  }

  ghost predicate ClipReachable(n: nat, sqrt: real -> real) {
    exists values: seq<real>, k: nat ::
      |values| == n && k < n && Clip(StatsFor(values, sqrt), values[k]) != values[k]
  }

  /** The lengths from which a window can flag one of its own members, exactly. */
  lemma SharpWindowLengths(n: nat, sqrt: real -> real)
    requires IsSqrt(sqrt)
    ensures Reachable(n, sqrt, {Medium, High, Critical}) <==> n >= 8
    ensures Reachable(n, sqrt, {High, Critical}) <==> n >= 11
    ensures Reachable(n, sqrt, {Critical}) <==> n >= 18
    ensures ClipReachable(n, sqrt) <==> n >= 11
  {
    forall values: seq<real>, k: nat | |values| == n && k < n
      ensures Describes(StatsFor(values, sqrt), values)
      ensures n <= 7 ==> Judge(StatsFor(values, sqrt), values[k]) == None
      ensures n <= 10 ==> Judge(StatsFor(values, sqrt), values[k]) in {None, Some(Medium)}
      ensures n <= 17 ==> Judge(StatsFor(values, sqrt), values[k]) != Some(Critical)
      ensures n <= 10 ==> Clip(StatsFor(values, sqrt), values[k]) == values[k]
    {
      StatsForDescribes(values, sqrt);
      WindowMemberBounds(StatsFor(values, sqrt), values, k);
    }
    if n >= 8 { SpikeWitness(n, sqrt); }
  }

  /** The spike realises every verdict its length allows. */
  lemma SpikeWitness(n: nat, sqrt: real -> real)
    requires IsSqrt(sqrt) && n >= 8
    ensures Reachable(n, sqrt, {Medium, High, Critical})
    ensures n >= 11 ==> Reachable(n, sqrt, {High, Critical}) && ClipReachable(n, sqrt)
    ensures n >= 18 ==> Reachable(n, sqrt, {Critical})
  {
    var values := Spike(n);
    var s := StatsFor(values, sqrt);
    SpikeBeyond(n, sqrt, 2.5);
    SpikeBeyond(n, sqrt, 3.0);
    SpikeBeyond(n, sqrt, 4.0);
    assert values[n - 1] == 1.0;
    var verdict := Judge(s, values[n - 1]);
    assert verdict.Some?;
    if n >= 11 {
      assert verdict.value in {High, Critical};
      SpikeStats(n);
      ClipAbove(s, 1.0);
    }
  }

  lemma ClipAbove(s: Stats, v: real)
    requires s.std > 0.0 && Abs(v - s.mean) > 3.0 * s.std
    ensures Clip(s, v) != v
  {
  }

  // ---- the rules as the workers apply them ----

  lemma {:induction false} OwnReadingIsMember(window: seq<Reading>, i: nat, key: string) returns (k: nat)
    requires i < |window| && key in window[i] && Numeric(window[i][key])
    ensures k < |FieldValues(window, key)| && FieldValues(window, key)[k] == AsReal(window[i][key])
  {
    var before := window[..|window| - 1];
    if i == |window| - 1 {
      k := |FieldValues(before, key)|;
    } else {
      k := OwnReadingIsMember(before, i, key);
    }
  }

  /** A reading that is already part of the window it is judged against. */
  lemma OwnReadingBounds(window: seq<Reading>, i: nat, key: string, s: Stats)
    requires i < |window| && key in window[i] && Numeric(window[i][key])
    requires Describes(s, FieldValues(window, key))
    ensures var n, v := |FieldValues(window, key)|, AsReal(window[i][key]);
            && (n <= 7 ==> Judge(s, v) == None)
            && (n <= 10 ==> Judge(s, v) in {None, Some(Medium)} && Clip(s, v) == v)
            && (n <= 17 ==> Judge(s, v) != Some(Critical))
  {
    var k := OwnReadingIsMember(window, i, key);
    WindowMemberBounds(s, FieldValues(window, key), k);
  }

  // ---- the verdicts, without the root ----

  /** The sigma rule on any value, above or below the mean: flagged beyond two and a half standard deviations, HIGH
      beyond three and CRITICAL beyond four, in squared form; in a constant window nothing is flagged. */
  lemma JudgedIff(s: Stats, values: seq<real>, v: real)
    requires Describes(s, values)
    ensures var d, y := v - Mean(values), Variance(values);
            && (Judge(s, v).Some? <==> y > 0.0 && d * d > 6.25 * y)
            && (Judge(s, v) in {Some(High), Some(Critical)} <==> y > 0.0 && d * d > 9.0 * y)
            && (Judge(s, v) == Some(Critical) <==> y > 0.0 && d * d > 16.0 * y)
  {
    var d, y := v - Mean(values), Variance(values);
    RootOfZero(s.std, y);
    if s.std > 0.0 {
      ZScoreSquared(d, s.std, 2.5);
      ZScoreSquared(d, s.std, 3.0);
      ZScoreSquared(d, s.std, 4.0);
    }
  }

  lemma RootOfZero(std: real, y: real)
    requires std >= 0.0 && std * std == y
    ensures y > 0.0 <==> std > 0.0
  {
    if std > 0.0 {
      PositiveProduct(std, std, y);
    } else {
      ZeroProduct(std, std, y);
    }
  }

  lemma ZeroProduct(a: real, b: real, y: real)
    requires a == 0.0 && a * b == y
    ensures y == 0.0
  {
  }

  lemma PositiveProduct(a: real, b: real, y: real)
    requires a > 0.0 && b > 0.0 && a * b == y
    ensures y > 0.0
  {
  }

  /** Values equally far above and below the mean are judged alike. */
  lemma JudgedBothWays(s: Stats, d: real)
    ensures Judge(s, s.mean + d) == Judge(s, s.mean - d)
  {
  }

  /** The clip moves a value to the nearest point within three standard deviations of the mean, and so leaves a value
      there as it is; in a constant window it does nothing. */
  lemma ClippedIsNearest(s: Stats, v: real, w: real)
    requires s.std >= 0.0
    ensures s.std == 0.0 ==> Clip(s, v) == v
    ensures s.std > 0.0 ==> Abs(Clip(s, v) - s.mean) <= 3.0 * s.std
    ensures s.std > 0.0 && Abs(w - s.mean) <= 3.0 * s.std ==> Abs(Clip(s, v) - v) <= Abs(w - v)
  {
  }
}

/**
 What the three statistics compute, told from the values given to them: centring, the variance and
 the correlation, with every quotient multiplied out.
 */
module Moments {
  import opened Reals
  import NeweyWest
  import RollingCorr
  import Ranks

  // ----- Centring

  /** `r` is `x` moved by one amount so that it adds up to zero; there is just one such `r`. */
  predicate Centres(x: seq<real>, r: seq<real>) {
    |r| == |x| && Sum(r) == 0.0 && forall i, j :: 0 <= i < j < |x| ==> r[j] - r[i] == x[j] - x[i]
  }

  lemma {:induction false} MovedSum(x: seq<real>, r: seq<real>, c: real, n: nat)
    requires |r| == |x| && n <= |x| && forall i :: 0 <= i < |x| ==> r[i] == x[i] - c
    ensures Sum(r[..n]) == Sum(x[..n]) - Product(n as real, c)
  {
    hide Sum;
    SumPrefix(r, n);
    SumPrefix(x, n);
    if n > 0 {
      MovedSum(x, r, c, n - 1);
      assert Product(n as real, c) == Product((n - 1) as real, c) + c;
    }
  }

  lemma MeanRemoved(x: seq<real>, r: seq<real>, sum: real)
    requires x != [] && |r| == |x| && Sum(x) == sum
    requires forall i :: 0 <= i < |x| ==> r[i] == x[i] - sum / (|x| as real)
    ensures Centres(x, r)
  {
    hide Sum;
    var mean := sum / (|x| as real);
    MovedSum(x, r, mean, |x|);
    assert r[..|x|] == r && x[..|x|] == x;
    assert Product(|x| as real, mean) == sum;
  }

  lemma ResidualsCentred(x: seq<real>)
    requires x != []
    ensures Centres(x, NeweyWest.Residuals(x))
  {
    hide Sum, Centres;
    MeanRemoved(x, NeweyWest.Residuals(x), Sum(x));
  }

  /** Column `j` of a window. */
  function ColumnOf(w: RollingCorr.Rows, j: nat): seq<real>
    requires forall i :: 0 <= i < |w| ==> j < |w[i]|
  {
    seq(|w|, k requires 0 <= k < |w| => w[k][j])
  }

  lemma {:induction false} ColumnSummed(w: RollingCorr.Rows, j: nat, k: nat)
    requires k <= |w| && forall i :: 0 <= i < |w| ==> j < |w[i]|
    ensures RollingCorr.ColumnSum(w, j, k) == Sum(ColumnOf(w, j)[..k])
  {
    hide Sum;
    SumPrefix(ColumnOf(w, j), k);
    if k > 0 {
      ColumnSummed(w, j, k - 1);
    }
  }

  lemma DeviationsCentred(w: RollingCorr.Rows, j: nat)
    requires w != [] && forall i :: 0 <= i < |w| ==> j < |w[i]|
    ensures Centres(ColumnOf(w, j), RollingCorr.Deviations(w, j))
  {
    hide Sum, Centres;
    var x := ColumnOf(w, j);
    ColumnSummed(w, j, |w|);
    assert x[..|w|] == x;
    MeanRemoved(x, RollingCorr.Deviations(w, j), Sum(x));
  }

  lemma RanksCentred(x: seq<real>)
    requires x != []
    ensures Centres(x, Ranks.Centred(x))
  {
    hide Sum, Centres;
    MeanRemoved(x, Ranks.Centred(x), Sum(x));
  }

  // ----- The standard error

  /** Of two values the squared error is the square of half their difference; of more, n times it is the
      variance, floored at 1e-12, and the variance times n and the number of lags, counting lag 0, is the
      sum of squared moving sums. */
  lemma ErrorExactly(x: seq<real>, maxLag: int) returns (variance: real, r: seq<real>)
    requires |x| >= 2
    ensures |x| == 2 ==> 4.0 * NeweyWest.ErrorSquared(x, maxLag) == Product(x[1] - x[0], x[1] - x[0])
    ensures Centres(x, r)
    ensures |x| > 2 ==>
              var n, lags: int := |x| as real, if maxLag <= 0 then 0 else maxLag;
              && Product(n, NeweyWest.ErrorSquared(x, maxLag)) == Max(variance, 0.000000000001)
              && Product(Product((lags + 1) as real, n), variance) == NeweyWest.SquaredWindows(r, lags, |x| + lags)
  {
    hide Centres, Sum, NeweyWest.Residuals, NeweyWest.LongRunVariance, NeweyWest.AutoProduct, NeweyWest.SquaredWindows;
    r, variance := NeweyWest.Residuals(x), NeweyWest.LongRunVariance(x, maxLag);
    ResidualsCentred(x);
    NeweyWest.VarianceIsSumOfSquares(x, maxLag);
    if |x| == 2 {
      TwoValues(x, r);
    } else {
      Multiplied(NeweyWest.Clamp(variance), |x| as real);
    }
  }

  lemma Multiplied(v: real, n: real)
    requires n > 0.0
    ensures Product(n, v / n) == v
  {
  }

  lemma TwoValues(x: seq<real>, r: seq<real>)
    requires |x| == 2 && Centres(x, r)
    ensures 2.0 * NeweyWest.AutoProduct(r, 0) == Product(x[1] - x[0], x[1] - x[0])
  {
    var d := x[1] - x[0];
    TwoSummed(r);
    assert r[0] == -d / 2.0 && r[1] == d / 2.0;
    assert r[0..] == r && r[..2] == r;
    TwoMultiplied(r);
    assert Product(r[0], r[0]) == Product(d, d) / 4.0;
    assert Product(r[1], r[1]) == Product(d, d) / 4.0;
  }

  lemma TwoSummed(r: seq<real>)
    requires |r| == 2
    ensures Sum(r) == r[0] + r[1]
  {
    var one := r[..1];
    assert Sum(r) == Sum(one) + r[1] && Sum(one) == Sum(one[..0]) + one[0];
  }

  lemma TwoMultiplied(r: seq<real>)
    requires |r| == 2
    ensures Dot(r, r) == Product(r[0], r[0]) + Product(r[1], r[1])
  {
    hide Product;
    var one := r[..1];
    assert Dot(r, r) == Dot(one, one) + Product(r[1], r[1]);
    assert Dot(one, one) == Dot(one[..0], one[..0]) + Product(one[0], one[0]);
  }

  // ----- Correlations

  /** Before the window is full a matrix is the unit matrix. After that the entry off the diagonal, times the
      roots of the two variances floored at 1e-12, is the covariance, with a divisor of one less than the
      window for all three. */
  lemma CorrelationExactly(root: real -> real, x: RollingCorr.Rows, columns: nat, window: nat, t: nat, i: nat, j: nat)
    returns (p: real, q: real, a: seq<real>, b: seq<real>)
    requires IsRoot(root) && RollingCorr.Rectangular(x, columns) && 2 <= window && t < |x| && i < columns && j < columns
    ensures var e := RollingCorr.EntryAt(root, x, columns, window, t, i, j);
            && (i == j ==> e == 1.0)
            && (t + 1 < window && i != j ==> e == 0.0)
            && (t + 1 >= window && i != j ==>
                  var w, n := x[t + 1 - window..t + 1], (window - 1) as real;
                  && Centres(ColumnOf(w, i), a) && Centres(ColumnOf(w, j), b)
                  && p >= 0.0 && Product(n, Product(p, p)) == Max(Dot(a, a), 0.000000000001 * n)
                  && q >= 0.0 && Product(n, Product(q, q)) == Max(Dot(b, b), 0.000000000001 * n)
                  && Product(n, Product(e, Product(p, q))) == Dot(a, b))
  {
    hide IsRoot, Centres, Dot, RollingCorr.NativeEntry, RollingCorr.Deviations, RollingCorr.Cov, RollingCorr.Std;
    p, q, a, b := 0.0, 0.0, [], [];
    if t + 1 >= window && i != j {
      var w := x[t + 1 - window..t + 1];
      a, b := RollingCorr.Deviations(w, i), RollingCorr.Deviations(w, j);
      p, q := RollingCorr.Std(root, w, i), RollingCorr.Std(root, w, j);
      DeviationsCentred(w, i);
      DeviationsCentred(w, j);
      CovTimes(w, i, j);
      StdTimes(root, w, i);
      StdTimes(root, w, j);
      RollingCorr.ClampIdle(root, w, i, j);
      QuotientTimes(RollingCorr.Cov(w, i, j), Product(p, q));
    } else {
      RollingCorr.CorrelationShape(root, x, columns, window, t, i, j);
    }
  }

  lemma QuotientTimes(c: real, d: real)
    requires d != 0.0
    ensures Product(c / d, d) == c
  {
  }

  lemma CovTimes(w: RollingCorr.Rows, i: nat, j: nat)
    requires |w| >= 2 && forall n :: 0 <= n < |w| ==> i < |w[n]| && j < |w[n]|
    ensures var a, b := RollingCorr.Deviations(w, i), RollingCorr.Deviations(w, j);
            Product((|w| - 1) as real, RollingCorr.Cov(w, i, j)) == Dot(a, b)
  {
    hide RollingCorr.CoSum, RollingCorr.Deviations, Dot;
    var a, b := RollingCorr.Deviations(w, i), RollingCorr.Deviations(w, j);
    RollingCorr.CoSumIsDot(w, i, j, |w|);
    assert a[..|w|] == a && b[..|w|] == b;
    Multiplied(RollingCorr.CoSum(w, i, j, |w|), (|w| - 1) as real);
  }

  lemma StdTimes(root: real -> real, w: RollingCorr.Rows, i: nat)
    requires IsRoot(root) && |w| >= 2 && forall n :: 0 <= n < |w| ==> i < |w[n]|
    ensures var a, p, n := RollingCorr.Deviations(w, i), RollingCorr.Std(root, w, i), (|w| - 1) as real;
            p >= 0.0 && Product(n, Product(p, p)) == Max(Dot(a, a), 0.000000000001 * n)
  {
    hide IsRoot, RollingCorr.Deviations, RollingCorr.Cov, Dot;
    CovTimes(w, i, i);
    var v := RollingCorr.Cov(w, i, i);
    RootOf(root, Max(v, 0.000000000001));
    FlooredTimes(v, 0.000000000001, (|w| - 1) as real);
  }

  lemma FlooredTimes(v: real, floor: real, n: real)
    requires n > 0.0
    ensures Product(n, Max(v, floor)) == Max(Product(n, v), floor * n)
  {
    if floor > v {
      Positive(floor - v, n);
    } else {
      Scaled(floor, v, n);
    }
  }

  // ----- The rank correlation

  /** The coefficient is zero for fewer than four values and where the product of the two sums of squares is
      below 1e-24; else it is the sum of products over the root of that. */
  lemma SpearmanExactly(signals: seq<real>, forward: seq<real>) returns (a: seq<real>, b: seq<real>)
    requires |signals| == |forward|
    ensures |signals| > 0 ==>
              && Centres(Ranks.RankVector(signals), a) && Centres(Ranks.RankVector(forward), b)
              && var squares := Product(Dot(a, a), Dot(b, b));
                 Ranks.SpearmanIc(signals, forward) ==
                 if |signals| <= 3 || 1_000_000_000_000_000_000_000_000.0 * squares < 1.0 then Ranks.Zero
                 else Ranks.Ratio(Dot(a, b), squares)
    ensures signals == [] ==> Ranks.SpearmanIc(signals, forward) == Ranks.Zero
  {
    hide Centres, Dot, Product, Ranks.RankVector, Ranks.Centred;
    a, b := [], [];
    if signals != [] {
      a, b := Ranks.Centred(Ranks.RankVector(signals)), Ranks.Centred(Ranks.RankVector(forward));
      RanksCentred(Ranks.RankVector(signals));
      RanksCentred(Ranks.RankVector(forward));
      BelowThreshold(Product(Dot(a, a), Dot(b, b)));
    }
  }

  lemma BelowThreshold(x: real)
    ensures 1_000_000_000_000_000_000_000_000.0 * x < 1.0 <==> x < 0.000000000000000000000001
  {
  }
}

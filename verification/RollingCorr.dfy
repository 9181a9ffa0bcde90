/**
 Rolling correlation matrices, native and NumPy, over exact reals. The square root is a parameter.

 Both kernels floor variances, guard the division and clamp the quotient. The floor makes the
 guard pass and the Cauchy-Schwarz inequality makes the clamp idle, which is also why the kernels,
 whose guards fall back differently, agree.
 */
module RollingCorr {
  import opened Wrappers
  import opened Reals
  import Ranks

  type Rows = seq<seq<real>>

  predicate Rectangular(x: Rows, columns: nat) {
    forall k :: 0 <= k < |x| ==> |x[k]| == columns
  }

  // ----- Moments of one window

  /** The first `k` values of column `j`, added up. */
  function ColumnSum(w: Rows, j: nat, k: nat): real
    requires k <= |w| && forall i :: 0 <= i < |w| ==> j < |w[i]|
  {
    if k == 0 then 0.0 else ColumnSum(w, j, k - 1) + w[k - 1][j]
  }

  function Mean(w: Rows, j: nat): real
    requires w != [] && forall i :: 0 <= i < |w| ==> j < |w[i]|
  {
    ColumnSum(w, j, |w|) / (|w| as real)
  }

  function Deviation(w: Rows, k: nat, j: nat): real
    requires k < |w| && forall i :: 0 <= i < |w| ==> j < |w[i]|
  {
    w[k][j] - Mean(w, j)
  }

  /** The first `k` products of deviations in columns `i` and `j`, added up. */
  function CoSum(w: Rows, i: nat, j: nat, k: nat): real
    requires k <= |w| && forall n :: 0 <= n < |w| ==> i < |w[n]| && j < |w[n]|
  {
    if k == 0 then 0.0 else CoSum(w, i, j, k - 1) + Product(Deviation(w, k - 1, i), Deviation(w, k - 1, j))
  }

  function DenomScale(window: nat): (s: real)
    ensures s >= 1.0
  {
    Max((window - 1) as real, 1.0)
  }

  function Cov(w: Rows, i: nat, j: nat): real
    requires w != [] && forall n :: 0 <= n < |w| ==> i < |w[n]| && j < |w[n]|
  {
    CoSum(w, i, j, |w|) / DenomScale(|w|)
  }

  const FLOOR := 0.000000000001

  function Std(root: real -> real, w: Rows, i: nat): real
    requires w != [] && forall n :: 0 <= n < |w| ==> i < |w[n]|
  {
    root(Max(Cov(w, i, i), FLOOR))
  }

  function Denom(root: real -> real, w: Rows, i: nat, j: nat): real
    requires w != [] && forall n :: 0 <= n < |w| ==> i < |w[n]| && j < |w[n]|
  {
    Std(root, w, i) * Std(root, w, j)
  }

  // ----- The two kernels' entries

  const GUARD := 0.00000000000001

  function Clamped(x: real): real {
    Min(Max(x, -1.0), 1.0)
  }

  function NativeEntry(root: real -> real, w: Rows, i: nat, j: nat): real
    requires w != [] && forall n :: 0 <= n < |w| ==> i < |w[n]| && j < |w[n]|
  {
    if i == j then 1.0
    else
      var denom := Denom(root, w, i, j);
      Clamped(if denom > GUARD then Cov(w, i, j) / denom else 0.0)
  }

  function NumpyEntry(root: real -> real, w: Rows, i: nat, j: nat): real
    requires w != [] && forall n :: 0 <= n < |w| ==> i < |w[n]| && j < |w[n]|
  {
    var denom := Denom(root, w, i, j);
    Clamped(if i == j then 1.0 else Cov(w, i, j) / if denom > GUARD then denom else 1.0)
  }

  /** The window of bar `t`: the identity where there is none yet. */
  function EntryAt(root: real -> real, x: Rows, columns: nat, window: nat, t: nat, i: nat, j: nat): real
    requires Rectangular(x, columns) && 2 <= window && t < |x| && i < columns && j < columns
  {
    if t < window - 1 then (if i == j then 1.0 else 0.0)
    else NativeEntry(root, x[t - (window - 1)..t + 1], i, j)
  }

  // ----- The native kernel

  /** `rolling_corr` with the wrapper's checks and the native ones. */
  method NativeRollingCorr(root: real -> real, x: Rows, columns: nat, window: int) returns (r: Option<array3<real>>)
    requires Rectangular(x, columns)
    ensures r.Some? <==> 2 <= window <= |x| && columns >= 1
    ensures r.Some? ==> r.value.Length0 == |x| && r.value.Length1 == r.value.Length2 == columns
    ensures r.Some? ==> forall t, i, j :: 0 <= t < |x| && 0 <= i < columns && 0 <= j < columns ==>
              r.value[t, i, j] == EntryAt(root, x, columns, window, t, i, j)
  {
    hide NativeEntry;
    if window < 2 || window > |x| || columns < 1 {
      return None;
    }
    var corr := new real[|x|, columns, columns]((t, i, j) => if i == j then 1.0 else 0.0);
    for t := window - 1 to |x|
      invariant fresh(corr) && corr.Length0 == |x| && corr.Length1 == corr.Length2 == columns
      invariant forall u, i, j :: 0 <= u < t && 0 <= i < columns && 0 <= j < columns ==>
                  corr[u, i, j] == EntryAt(root, x, columns, window, u, i, j)
      invariant forall u, i, j :: t <= u < |x| && 0 <= i < columns && 0 <= j < columns ==>
                  corr[u, i, j] == if i == j then 1.0 else 0.0
    {
      var cov := NativeCovariance(x[t - (window - 1)..t + 1], columns);
      NativeBar(root, x[t - (window - 1)..t + 1], columns, cov, corr, t);
    }
    return Some(corr);
  }

  /** Means, then the upper triangle of the covariance row by row, then the mirror. */
  method NativeCovariance(w: Rows, columns: nat) returns (cov: array2<real>)
    requires w != [] && Rectangular(w, columns)
    ensures fresh(cov) && cov.Length0 == cov.Length1 == columns
    ensures forall i, j :: 0 <= i < columns && 0 <= j < columns ==> cov[i, j] == Cov(w, i, j)
  {
    hide Mean, Deviation, Cov, Product;
    var means := NativeMeans(w, columns);
    cov := new real[columns, columns]((i, j) => 0.0);
    for k := 0 to |w|
      invariant forall j :: 0 <= j < columns ==> means[j] == Mean(w, j)
      invariant forall i, j :: 0 <= i <= j < columns ==> cov[i, j] == CoSum(w, i, j, k)
    {
      AddProducts(w, columns, k, means, cov);
    }
    Mirror(w, columns, cov);
    forall i, j | 0 <= j < i < columns
      ensures Cov(w, i, j) == Cov(w, j, i)
    {
      CovSymmetric(w, i, j);
    }
  }

  /** Divides the upper triangle and copies it below the diagonal. */
  method Mirror(w: Rows, columns: nat, cov: array2<real>)
    requires w != [] && Rectangular(w, columns) && cov.Length0 == cov.Length1 == columns
    requires forall i, j :: 0 <= i <= j < columns ==> cov[i, j] == CoSum(w, i, j, |w|)
    modifies cov
    ensures forall i, j :: 0 <= i <= j < columns ==> cov[i, j] == cov[j, i] == Cov(w, i, j)
  {
    hide CoSum, DenomScale;
    for i := 0 to columns
      invariant forall a, b :: 0 <= a < i && a <= b < columns ==> cov[a, b] == cov[b, a] == Cov(w, a, b)
      invariant forall a, b :: i <= a <= b < columns ==> cov[a, b] == CoSum(w, a, b, |w|)
    {
      for j := i to columns
        invariant forall a, b :: 0 <= a < i && a <= b < columns ==> cov[a, b] == cov[b, a] == Cov(w, a, b)
        invariant forall b :: i <= b < j ==> cov[i, b] == cov[b, i] == Cov(w, i, b)
        invariant forall b :: j <= b < columns ==> cov[i, b] == CoSum(w, i, b, |w|)
        invariant forall a, b :: i < a <= b < columns ==> cov[a, b] == CoSum(w, a, b, |w|)
      {
        cov[i, j] := cov[i, j] / DenomScale(|w|);
        cov[j, i] := cov[i, j];
      }
    }
  }

  method NativeMeans(w: Rows, columns: nat) returns (means: array<real>)
    requires w != [] && Rectangular(w, columns)
    ensures fresh(means) && means.Length == columns
    ensures forall j :: 0 <= j < columns ==> means[j] == Mean(w, j)
  {
    means := new real[columns](_ => 0.0);
    for k := 0 to |w|
      invariant forall j :: 0 <= j < columns ==> means[j] == ColumnSum(w, j, k)
    {
      for j := 0 to columns
        invariant forall a :: 0 <= a < j ==> means[a] == ColumnSum(w, a, k + 1)
        invariant forall a :: j <= a < columns ==> means[a] == ColumnSum(w, a, k)
      {
        means[j] := means[j] + w[k][j];
      }
    }
    for j := 0 to columns
      invariant forall a :: 0 <= a < j ==> means[a] == Mean(w, a)
      invariant forall a :: j <= a < columns ==> means[a] == ColumnSum(w, a, |w|)
    {
      means[j] := means[j] / (|w| as real);
    }
  }

  /** One row's products, into the upper triangle. */
  method AddProducts(w: Rows, columns: nat, k: nat, means: array<real>, cov: array2<real>)
    requires k < |w| && Rectangular(w, columns)
    requires means.Length == columns && forall j :: 0 <= j < columns ==> means[j] == Mean(w, j)
    requires cov.Length0 == cov.Length1 == columns
    requires forall i, j :: 0 <= i <= j < columns ==> cov[i, j] == CoSum(w, i, j, k)
    modifies cov
    ensures forall i, j :: 0 <= i <= j < columns ==> cov[i, j] == CoSum(w, i, j, k + 1)
  {
    hide Mean, Product;
    for i := 0 to columns
      invariant forall a, b :: 0 <= a < i && a <= b < columns ==> cov[a, b] == CoSum(w, a, b, k + 1)
      invariant forall a, b :: i <= a <= b < columns ==> cov[a, b] == CoSum(w, a, b, k)
    {
      var di := w[k][i] - means[i];
      for j := i to columns
        invariant forall a, b :: 0 <= a < i && a <= b < columns ==> cov[a, b] == CoSum(w, a, b, k + 1)
        invariant forall b :: i <= b < j ==> cov[i, b] == CoSum(w, i, b, k + 1)
        invariant forall b :: j <= b < columns ==> cov[i, b] == CoSum(w, i, b, k)
        invariant forall a, b :: i < a <= b < columns ==> cov[a, b] == CoSum(w, a, b, k)
      {
        var dj := w[k][j] - means[j];
        cov[i, j] := cov[i, j] + Product(di, dj);
      }
    }
  }

  method NativeStds(root: real -> real, w: Rows, columns: nat, cov: array2<real>) returns (stds: array<real>)
    requires w != [] && Rectangular(w, columns)
    requires cov.Length0 == cov.Length1 == columns
    requires forall i, j :: 0 <= i < columns && 0 <= j < columns ==> cov[i, j] == Cov(w, i, j)
    ensures fresh(stds) && stds.Length == columns
    ensures forall i :: 0 <= i < columns ==> stds[i] == Std(root, w, i)
  {
    hide Cov;
    stds := new real[columns];
    for i := 0 to columns
      invariant forall a :: 0 <= a < i ==> stds[a] == Std(root, w, a)
    {
      stds[i] := root(Max(cov[i, i], FLOOR));
    }
  }

  /** The correlations of one bar. */
  method NativeBar(root: real -> real, w: Rows, columns: nat, cov: array2<real>, corr: array3<real>, t: nat)
    requires w != [] && Rectangular(w, columns)
    requires cov.Length0 == cov.Length1 == columns
    requires forall i, j :: 0 <= i < columns && 0 <= j < columns ==> cov[i, j] == Cov(w, i, j)
    requires t < corr.Length0 && corr.Length1 == corr.Length2 == columns
    modifies corr
    ensures forall i, j :: 0 <= i < columns && 0 <= j < columns ==> corr[t, i, j] == NativeEntry(root, w, i, j)
    ensures forall u, i, j :: 0 <= u < corr.Length0 && u != t && 0 <= i < columns && 0 <= j < columns ==>
              corr[u, i, j] == old(corr[u, i, j])
  {
    hide Cov, Clamped, Std;
    var stds := NativeStds(root, w, columns, cov);
    for i := 0 to columns
      invariant forall a :: 0 <= a < columns ==> stds[a] == Std(root, w, a)
      invariant forall a, j :: 0 <= a < i && 0 <= j < columns ==> corr[t, a, j] == NativeEntry(root, w, a, j)
      invariant forall u, a, j :: 0 <= u < corr.Length0 && u != t && 0 <= a < columns && 0 <= j < columns ==>
                  corr[u, a, j] == old(corr[u, a, j])
    {
      for j := 0 to columns
        invariant forall a :: 0 <= a < columns ==> stds[a] == Std(root, w, a)
        invariant forall a, b :: 0 <= a < i && 0 <= b < columns ==> corr[t, a, b] == NativeEntry(root, w, a, b)
        invariant forall b :: 0 <= b < j ==> corr[t, i, b] == NativeEntry(root, w, i, b)
        invariant forall u, a, b :: 0 <= u < corr.Length0 && u != t && 0 <= a < columns && 0 <= b < columns ==>
                    corr[u, a, b] == old(corr[u, a, b])
      {
        if i == j {
          corr[t, i, j] := 1.0;
        } else {
          var denom := stds[i] * stds[j];
          assert denom == Denom(root, w, i, j);
          corr[t, i, j] := Clamped(if denom > GUARD then cov[i, j] / denom else 0.0);
        }
      }
    }
  }

  // ----- Guard and clamp never act

  lemma {:induction false} CoSumSymmetric(w: Rows, i: nat, j: nat, k: nat)
    requires k <= |w| && forall n :: 0 <= n < |w| ==> i < |w[n]| && j < |w[n]|
    ensures CoSum(w, i, j, k) == CoSum(w, j, i, k)
  {
    hide Deviation;
    if k > 0 {
      CoSumSymmetric(w, i, j, k - 1);
    }
  }

  lemma CovSymmetric(w: Rows, i: nat, j: nat)
    requires w != [] && forall n :: 0 <= n < |w| ==> i < |w[n]| && j < |w[n]|
    ensures Cov(w, i, j) == Cov(w, j, i)
  {
    CoSumSymmetric(w, i, j, |w|);
  }

  /** Column `j`, centred. */
  function Deviations(w: Rows, j: nat): (d: seq<real>)
    requires forall n :: 0 <= n < |w| ==> j < |w[n]|
    ensures |d| == |w|
  {
    seq(|w|, k requires 0 <= k < |w| => Deviation(w, k, j))
  }

  lemma {:induction false} CoSumIsDot(w: Rows, i: nat, j: nat, k: nat)
    requires k <= |w| && forall n :: 0 <= n < |w| ==> i < |w[n]| && j < |w[n]|
    ensures CoSum(w, i, j, k) == Dot(Deviations(w, i)[..k], Deviations(w, j)[..k])
  {
    hide Deviation;
    if k > 0 {
      CoSumIsDot(w, i, j, k - 1);
      var x, y := Deviations(w, i), Deviations(w, j);
      assert x[..k][..k - 1] == x[..k - 1] && y[..k][..k - 1] == y[..k - 1];
    }
  }

  lemma CovBounded(w: Rows, i: nat, j: nat)
    requires w != [] && forall n :: 0 <= n < |w| ==> i < |w[n]| && j < |w[n]|
    ensures Cov(w, i, i) >= 0.0 && Cov(w, j, j) >= 0.0
    ensures Cov(w, i, j) * Cov(w, i, j) <= Cov(w, i, i) * Cov(w, j, j)
  {
    hide CoSum, DenomScale;
    CoSumBounded(w, i, j);
    ScaleDown(CoSum(w, i, j, |w|), CoSum(w, i, i, |w|), CoSum(w, j, j, |w|), DenomScale(|w|));
  }

  lemma CoSumBounded(w: Rows, i: nat, j: nat)
    requires forall n :: 0 <= n < |w| ==> i < |w[n]| && j < |w[n]|
    ensures CoSum(w, i, i, |w|) >= 0.0 && CoSum(w, j, j, |w|) >= 0.0
    ensures CoSum(w, i, j, |w|) * CoSum(w, i, j, |w|) <= CoSum(w, i, i, |w|) * CoSum(w, j, j, |w|)
  {
    hide CoSum, Deviations, Dot;
    var x, y := Deviations(w, i), Deviations(w, j);
    assert x[..|w|] == x && y[..|w|] == y;
    CoSumIsDot(w, i, j, |w|);
    CoSumIsDot(w, i, i, |w|);
    CoSumIsDot(w, j, j, |w|);
    Ranks.CauchySchwarz(x, y);
  }

  lemma ScaleDown(c: real, a: real, b: real, s: real)
    requires s > 0.0 && a >= 0.0 && b >= 0.0 && c * c <= a * b
    ensures a / s >= 0.0 && b / s >= 0.0
    ensures (c / s) * (c / s) <= (a / s) * (b / s)
  {
    var inv := 1.0 / s;
    assert c / s == c * inv && a / s == a * inv && b / s == b * inv;
    Regroup(c, c, inv);
    Regroup(a, b, inv);
    Scaled(c * c, a * b, inv * inv);
  }

  lemma Regroup(x: real, y: real, z: real)
    ensures (x * z) * (y * z) == (x * y) * (z * z)
  {
  }

  lemma LargerRoots(x: real, y: real)
    requires x >= 0.0 && y >= 0.0 && x * x <= y * y
    ensures x <= y
  {
    if x > y {
      Ranks.LargerSquare(y, x);
    }
  }

  lemma RootsMultiply(p: real, q: real)
    ensures (p * q) * (p * q) == (p * p) * (q * q)
  {
  }

  lemma ProductGrows(a: real, b: real, c: real, d: real)
    requires 0.0 <= a <= c && 0.0 <= b <= d
    ensures a * b <= c * d
  {
    Scaled(a, c, b);
    Scaled(b, d, c);
  }

  /** The product of two floored deviations is above the division guard and no smaller than the
      covariance. */
  lemma DenomCovers(root: real -> real, w: Rows, i: nat, j: nat)
    requires IsRoot(root) && w != [] && forall n :: 0 <= n < |w| ==> i < |w[n]| && j < |w[n]|
    ensures Denom(root, w, i, j) >= FLOOR > GUARD
    ensures -Denom(root, w, i, j) <= Cov(w, i, j) <= Denom(root, w, i, j)
  {
    hide Cov, IsRoot;
    CovBounded(w, i, j);
    RootOf(root, Max(Cov(w, i, i), FLOOR));
    RootOf(root, Max(Cov(w, j, j), FLOOR));
    RootsCover(Std(root, w, i), Std(root, w, j), Cov(w, i, j), Cov(w, i, i), Cov(w, j, j));
  }

  lemma RootsCover(p: real, q: real, c: real, x: real, y: real)
    requires p >= 0.0 && q >= 0.0 && x >= 0.0 && y >= 0.0 && c * c <= x * y
    requires p * p == Max(x, FLOOR) && q * q == Max(y, FLOOR)
    ensures p * q >= FLOOR > GUARD && -(p * q) <= c <= p * q
  {
    RootsMultiply(p, q);
    Scaled(0.0, p, q);
    ProductGrows(x, y, Max(x, FLOOR), Max(y, FLOOR));
    ProductGrows(FLOOR, FLOOR, Max(x, FLOOR), Max(y, FLOOR));
    LargerRoots(FLOOR, p * q);
    LargerRoots(if c < 0.0 then -c else c, p * q);
  }

  /** The clamp and the guard never act: off the diagonal an entry is the covariance over the
      product of the floored deviations, as it stands. */
  lemma ClampIdle(root: real -> real, w: Rows, i: nat, j: nat)
    requires IsRoot(root) && w != [] && i != j && forall n :: 0 <= n < |w| ==> i < |w[n]| && j < |w[n]|
    ensures Denom(root, w, i, j) != 0.0
    ensures NativeEntry(root, w, i, j) == Cov(w, i, j) / Denom(root, w, i, j)
  {
    hide Cov, Denom, IsRoot;
    DenomCovers(root, w, i, j);
    QuotientBounded(Cov(w, i, j), Denom(root, w, i, j));
  }

  lemma QuotientBounded(c: real, d: real)
    requires d > 0.0 && -d <= c <= d
    ensures -1.0 <= c / d <= 1.0
  {
  }

  /** The native and the NumPy kernel compute the same matrices. */
  lemma KernelsAgree(root: real -> real, w: Rows, i: nat, j: nat)
    requires IsRoot(root) && w != [] && forall n :: 0 <= n < |w| ==> i < |w[n]| && j < |w[n]|
    ensures NativeEntry(root, w, i, j) == NumpyEntry(root, w, i, j)
  {
    hide Cov, Denom, IsRoot;
    DenomCovers(root, w, i, j);
  }

  /** Every matrix is symmetric, with a unit diagonal and entries between -1 and 1. */
  lemma CorrelationShape(root: real -> real, x: Rows, columns: nat, window: nat, t: nat, i: nat, j: nat)
    requires IsRoot(root) && Rectangular(x, columns) && 2 <= window && t < |x| && i < columns && j < columns
    ensures EntryAt(root, x, columns, window, t, i, j) == EntryAt(root, x, columns, window, t, j, i)
    ensures i == j ==> EntryAt(root, x, columns, window, t, i, j) == 1.0
    ensures -1.0 <= EntryAt(root, x, columns, window, t, i, j) <= 1.0
  {
    hide Cov, Std, IsRoot;
    if t >= window - 1 {
      CovSymmetric(x[t - (window - 1)..t + 1], i, j);
    }
  }

  /** Two columns that move exactly together correlate fully, whatever their levels, once the
      variance is above the floor. */
  lemma ShiftedColumns(root: real -> real, w: Rows, i: nat, j: nat, shift: real)
    requires IsRoot(root) && w != [] && i != j && forall n :: 0 <= n < |w| ==> i < |w[n]| && j < |w[n]|
    requires forall n :: 0 <= n < |w| ==> w[n][j] == w[n][i] + shift
    requires Cov(w, i, i) >= FLOOR
    ensures NativeEntry(root, w, i, j) == 1.0
  {
    hide Cov, IsRoot, NativeEntry;
    SameDeviations(w, i, j, shift, |w|);
    ClampIdle(root, w, i, j);
    SameCov(w, i, j);
    RootOf(root, Max(Cov(w, i, i), FLOOR));
    assert Denom(root, w, i, j) == Cov(w, i, i);
    FullQuotient(Cov(w, i, j), Denom(root, w, i, j));
  }

  lemma FullQuotient(c: real, d: real)
    requires c == d > 0.0
    ensures c / d == 1.0
  {
  }

  lemma {:induction false} SameDeviations(w: Rows, i: nat, j: nat, shift: real, k: nat)
    requires k <= |w| && w != [] && forall n :: 0 <= n < |w| ==> i < |w[n]| && j < |w[n]|
    requires forall n :: 0 <= n < |w| ==> w[n][j] == w[n][i] + shift
    ensures ColumnSum(w, j, k) == ColumnSum(w, i, k) + Product(k as real, shift)
    ensures k == |w| ==> forall n :: 0 <= n < |w| ==> Deviation(w, n, j) == Deviation(w, n, i)
  {
    hide Product;
    OneMoreShift(k, shift);
    if k > 0 {
      SameDeviations(w, i, j, shift, k - 1);
    }
    if k == |w| {
      MeanShifted(ColumnSum(w, i, k), k as real, shift);
    }
  }

  lemma OneMoreShift(k: nat, shift: real)
    ensures Product(k as real, shift) == if k == 0 then 0.0 else Product((k - 1) as real, shift) + shift
  {
  }

  lemma MeanShifted(sum: real, n: real, shift: real)
    requires n > 0.0
    ensures (sum + Product(n, shift)) / n == sum / n + shift
  {
  }

  lemma SameCov(w: Rows, i: nat, j: nat)
    requires w != [] && forall n :: 0 <= n < |w| ==> i < |w[n]| && j < |w[n]|
    requires forall n :: 0 <= n < |w| ==> Deviation(w, n, j) == Deviation(w, n, i)
    ensures Cov(w, i, j) == Cov(w, i, i) == Cov(w, j, j)
  {
    hide Deviation;
    SameCoSum(w, i, j, |w|);
  }

  lemma {:induction false} SameCoSum(w: Rows, i: nat, j: nat, k: nat)
    requires k <= |w| && forall n :: 0 <= n < |w| ==> i < |w[n]| && j < |w[n]|
    requires forall n :: 0 <= n < |w| ==> Deviation(w, n, j) == Deviation(w, n, i)
    ensures CoSum(w, i, j, k) == CoSum(w, i, i, k) == CoSum(w, j, j, k)
  {
    hide Deviation;
    if k > 0 {
      SameCoSum(w, i, j, k - 1);
    }
  }
}

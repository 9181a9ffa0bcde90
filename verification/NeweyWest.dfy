/**
 The Newey-West standard error of `_nw_se`, over exact reals; the square root is a parameter.

 With Bartlett weights the estimate is a sum of squares: (L + 1) * n * variance is the sum of the
 squared moving sums, over windows of L + 1 terms, of the residuals padded with zeros. That is why
 the clamp below it never has to hide a negative variance.
 */
module NeweyWest {
  import opened Reals

  // ----- What the code computes

  /** `np.sum(r[lag:] * r[:-lag])`, and the sum of squares for lag 0. */
  function AutoProduct(r: seq<real>, lag: nat): real {
    if lag >= |r| then 0.0 else Dot(r[lag..], r[..|r| - lag])
  }

  function Residuals(x: seq<real>): (r: seq<real>)
    requires x != []
    ensures |r| == |x|
  {
    var mean := Sum(x) / (|x| as real);
    seq(|x|, i requires 0 <= i < |x| => x[i] - mean)
  }

  function Weight(lag: nat, maxLag: nat): real {
    1.0 - (lag as real) / ((maxLag + 1) as real)
  }

  /** 2 * w * gamma for one lag. */
  function LagTerm(r: seq<real>, maxLag: nat, lag: nat): real
    requires r != []
  {
    2.0 * Weight(lag, maxLag) * (AutoProduct(r, lag) / (|r| as real))
  }

  /** The variance before its clamp, with the lags up to `upTo` added. */
  function PartialVariance(r: seq<real>, maxLag: nat, upTo: nat): real
    requires r != []
  {
    if upTo == 0 then AutoProduct(r, 0) / (|r| as real)
    else PartialVariance(r, maxLag, upTo - 1) + LagTerm(r, maxLag, upTo)
  }

  function Lags(maxLag: int): nat {
    if maxLag < 0 then 0 else maxLag
  }

  function LongRunVariance(x: seq<real>, maxLag: int): real
    requires x != []
  {
    PartialVariance(Residuals(x), Lags(maxLag), Lags(maxLag))
  }

  const FLOOR := 0.000000000001

  function Clamp(v: real): real {
    if v < FLOOR then FLOOR else v
  }

  /** What the standard error squares to, for more than one value. */
  function ErrorSquared(x: seq<real>, maxLag: int): real
    requires |x| >= 2
  {
    if |x| == 2 then AutoProduct(Residuals(x), 0) / 1.0 / 2.0 else Clamp(LongRunVariance(x, maxLag)) / (|x| as real)
  }

  /** `_nw_se` */
  method StandardError(root: real -> real, x: seq<real>, maxLag: int) returns (se: real)
    requires IsRoot(root)
    ensures |x| <= 1 ==> se == 1.0
    ensures |x| >= 2 ==> se >= 0.0 && se * se == ErrorSquared(x, maxLag)
  {
    hide Residuals, AutoProduct, LagTerm, IsRoot;
    if |x| < 3 {
      if |x| <= 1 {
        return 1.0;
      }
      SquaresNotNegative(x);
      RootQuotient(root, AutoProduct(Residuals(x), 0) / 1.0, 2.0);
      return root(AutoProduct(Residuals(x), 0) / 1.0) / root(2.0);
    }
    var n := |x| as real;
    var resid := Residuals(x);
    var nwVar := AutoProduct(resid, 0) / n;
    var lag := 1;
    while lag <= maxLag
      invariant 1 <= lag <= Lags(maxLag) + 1
      invariant nwVar == PartialVariance(resid, Lags(maxLag), lag - 1)
    {
      var w := 1.0 - (lag as real) / ((maxLag + 1) as real);
      var gamma := AutoProduct(resid, lag) / n;
      LagTermIs(resid, maxLag, lag);
      nwVar := nwVar + 2.0 * w * gamma;
      lag := lag + 1;
    }
    if nwVar < FLOOR {
      nwVar := FLOOR;
    }
    RootOf(root, nwVar / n);
    return root(nwVar / n);
  }

  /** The quotient of two roots is the root of the quotient. */
  lemma RootQuotient(root: real -> real, x: real, y: real)
    requires IsRoot(root) && x >= 0.0 && y > 0.0
    ensures root(y) != 0.0
    ensures root(x) / root(y) >= 0.0 && (root(x) / root(y)) * (root(x) / root(y)) == x / y
  {
    hide IsRoot;
    RootOf(root, x);
    RootOf(root, y);
    SquaredQuotient(root(x), root(y), x, y);
  }

  lemma SquaredQuotient(p: real, q: real, x: real, y: real)
    requires p >= 0.0 && q >= 0.0 && p * p == x && q * q == y > 0.0
    ensures q != 0.0 && p / q >= 0.0 && (p / q) * (p / q) == x / y
  {
    var r := p / q;
    assert r * q == p;
    Regrouped(r, q);
    Divides(r * r, y, x);
  }

  lemma Regrouped(r: real, q: real)
    ensures (r * q) * (r * q) == (r * r) * (q * q)
  {
  }

  lemma Divides(z: real, y: real, x: real)
    requires y > 0.0 && z * y == x
    ensures z == x / y
  {
  }

  lemma SquaresNotNegative(x: seq<real>)
    requires x != []
    ensures AutoProduct(Residuals(x), 0) >= 0.0
  {
    hide Residuals, AutoProduct;
    VarianceNonNegative(x, 0);
    assert LongRunVariance(x, 0) == AutoProduct(Residuals(x), 0) / (|x| as real);
  }

  lemma LagTermIs(r: seq<real>, maxLag: nat, lag: nat)
    requires r != []
    ensures LagTerm(r, maxLag, lag)
         == 2.0 * (1.0 - (lag as real) / ((maxLag + 1) as real)) * (AutoProduct(r, lag) / (|r| as real))
  {
  }

  // ----- Moving sums of the zero-padded residuals

  function At(r: seq<real>, i: int): real {
    if 0 <= i < |r| then r[i] else 0.0
  }

  /** r[s] + r[s-1] + ... + r[s-width] */
  function Window(r: seq<real>, width: nat, s: int): real {
    At(r, s - width) + if width == 0 then 0.0 else Window(r, width - 1, s)
  }

  /** The squared windows that end before `m`. */
  function SquaredWindows(r: seq<real>, width: nat, m: nat): (q: real)
    ensures q >= 0.0
  {
    if m == 0 then 0.0
    else
      SquareNonNegative(Window(r, width, m - 1));
      SquaredWindows(r, width, m - 1) + Product(Window(r, width, m - 1), Window(r, width, m - 1))
  }

  lemma SquareNonNegative(a: real)
    ensures Product(a, a) >= 0.0
  {
  }

  /** Sum over s < m of r[s-j] * r[s-k]. */
  function Lagged(r: seq<real>, j: nat, k: nat, m: nat): real {
    if m == 0 then 0.0 else Lagged(r, j, k, m - 1) + Product(At(r, m - 1 - j), At(r, m - 1 - k))
  }

  /** Sum over s < m of Window(s) * r[s-k]. */
  function WindowLagged(r: seq<real>, width: nat, k: nat, m: nat): real {
    if m == 0 then 0.0
    else WindowLagged(r, width, k, m - 1) + Product(Window(r, width, m - 1), At(r, m - 1 - k))
  }

  // ----- Lagged sums are autoproducts

  lemma {:induction false} LaggedPrefix(r: seq<real>, d: nat, m: nat)
    requires m <= |r|
    ensures Lagged(r, 0, d, m) == if m <= d then 0.0 else Dot(r[d..m], r[..m - d])
  {
    hide Product;
    if m > 0 {
      LaggedPrefix(r, d, m - 1);
      Distribute(At(r, m - 1), 0.0, At(r, m - 1 - d));
      if m > d {
        assert r[d..m][..m - d - 1] == r[d..m - 1];
        assert r[..m - d][..m - d - 1] == r[..m - 1 - d];
      }
    }
  }

  lemma {:induction false} LaggedBeyond(r: seq<real>, d: nat, m: nat)
    requires m >= |r|
    ensures Lagged(r, 0, d, m) == AutoProduct(r, d)
  {
    hide Product, Dot;
    if m == |r| {
      LaggedPrefix(r, d, m);
      if d < m {
        assert r[d..m] == r[d..];
      }
    } else {
      LaggedBeyond(r, d, m - 1);
      Distribute(At(r, m - 1 - d), 0.0, 0.0);
    }
  }

  lemma {:induction false} LaggedShift(r: seq<real>, j: nat, k: nat, m: nat)
    requires j <= k && j <= m
    ensures Lagged(r, j, k, m) == Lagged(r, 0, k - j, m - j)
    decreases m
  {
    hide Product;
    if m == j {
      LaggedEmpty(r, j, k, m);
    } else {
      LaggedShift(r, j, k, m - 1);
    }
  }

  lemma {:induction false} LaggedEmpty(r: seq<real>, j: nat, k: nat, m: nat)
    requires m <= j
    ensures Lagged(r, j, k, m) == 0.0
  {
    hide Product;
    if m > 0 {
      LaggedEmpty(r, j, k, m - 1);
      Distribute(At(r, m - 1 - k), 0.0, 0.0);
    }
  }

  lemma LaggedAuto(r: seq<real>, j: nat, k: nat, m: nat)
    requires j <= k && |r| + j <= m
    ensures Lagged(r, j, k, m) == AutoProduct(r, k - j)
  {
    LaggedShift(r, j, k, m);
    LaggedBeyond(r, k - j, m - j);
  }

  // ----- Widening the windows by one term

  lemma {:induction false} WindowLaggedSplit(r: seq<real>, width: nat, k: nat, m: nat)
    requires width > 0
    ensures WindowLagged(r, width, k, m) == WindowLagged(r, width - 1, k, m) + Lagged(r, width, k, m)
  {
    hide Product;
    if m > 0 {
      WindowLaggedSplit(r, width, k, m - 1);
      Distribute(At(r, m - 1 - width), Window(r, width - 1, m - 1), At(r, m - 1 - k));
    }
  }

  lemma Distribute(a: real, b: real, c: real)
    ensures Product(a + b, c) == Product(a, c) + Product(b, c)
    ensures Product(a, 0.0) == Product(0.0, a) == 0.0 && Product(1.0, c) == c
  {
  }

  lemma {:induction false} SquaredWindowsSplit(r: seq<real>, width: nat, m: nat)
    requires width > 0
    ensures SquaredWindows(r, width, m)
         == SquaredWindows(r, width - 1, m) + 2.0 * WindowLagged(r, width - 1, width, m) + Lagged(r, width, width, m)
  {
    hide Product;
    if m > 0 {
      SquaredWindowsSplit(r, width, m - 1);
      SquareOfSum(At(r, m - 1 - width), Window(r, width - 1, m - 1));
    }
  }

  lemma SquareOfSum(a: real, b: real)
    ensures Product(a + b, a + b) == Product(b, b) + 2.0 * Product(b, a) + Product(a, a)
  {
  }

  /** AutoProduct(1) + ... + AutoProduct(k) */
  function AutoSum(r: seq<real>, k: nat): real {
    if k == 0 then 0.0 else AutoSum(r, k - 1) + AutoProduct(r, k)
  }

  lemma {:induction false} WindowLaggedAuto(r: seq<real>, width: nat, k: nat, m: nat)
    requires width < k && |r| + k <= m
    ensures WindowLagged(r, width, k, m) == AutoSum(r, k) - AutoSum(r, k - width - 1)
  {
    hide Product, AutoProduct, Lagged;
    if width == 0 {
      WindowIsLagged(r, k, m);
      LaggedAuto(r, 0, k, m);
    } else {
      WindowLaggedSplit(r, width, k, m);
      WindowLaggedAuto(r, width - 1, k, m);
      LaggedAuto(r, width, k, m);
    }
  }

  lemma {:induction false} WindowIsLagged(r: seq<real>, k: nat, m: nat)
    ensures WindowLagged(r, 0, k, m) == Lagged(r, 0, k, m)
  {
    hide Product;
    if m > 0 {
      WindowIsLagged(r, k, m - 1);
      assert Window(r, 0, m - 1) == At(r, m - 1);
    }
  }

  // ----- The Bartlett sum

  /** Sum over 1 <= k <= upTo of (c - k) * AutoProduct(k). */
  function BartlettSum(r: seq<real>, c: nat, upTo: nat): real {
    if upTo == 0 then 0.0
    else BartlettSum(r, c, upTo - 1) + Product((c as real) - (upTo as real), AutoProduct(r, upTo))
  }

  lemma {:induction false} BartlettStep(r: seq<real>, c: nat, upTo: nat)
    ensures BartlettSum(r, c + 1, upTo) == BartlettSum(r, c, upTo) + AutoSum(r, upTo)
  {
    hide Product, AutoProduct;
    if upTo > 0 {
      BartlettStep(r, c, upTo - 1);
      Distribute((c as real) - (upTo as real), 1.0, AutoProduct(r, upTo));
    }
  }

  lemma {:induction false} WindowsAreBartlett(r: seq<real>, width: nat, m: nat)
    requires |r| + width <= m
    ensures SquaredWindows(r, width, m)
         == Product((width + 1) as real, AutoProduct(r, 0)) + 2.0 * BartlettSum(r, width + 1, width)
  {
    hide Product, AutoProduct, Lagged, WindowLagged, SquaredWindows;
    if width == 0 {
      SquaredIsLagged(r, m);
      LaggedAuto(r, 0, 0, m);
      Distribute(0.0, 0.0, AutoProduct(r, 0));
    } else {
      WindowsAreBartlett(r, width - 1, m);
      SquaredWindowsSplit(r, width, m);
      WindowLaggedAuto(r, width - 1, width, m);
      LaggedAuto(r, width, width, m);
      BartlettStep(r, width, width);
      Distribute(width as real, 1.0, AutoProduct(r, 0));
      Distribute(AutoProduct(r, width), 0.0, 0.0);
      assert BartlettSum(r, width, width) == BartlettSum(r, width, width - 1);
    }
  }

  lemma {:induction false} SquaredIsLagged(r: seq<real>, m: nat)
    ensures SquaredWindows(r, 0, m) == Lagged(r, 0, 0, m)
  {
    hide Product;
    if m > 0 {
      SquaredIsLagged(r, m - 1);
      assert Window(r, 0, m - 1) == At(r, m - 1);
    }
  }

  lemma {:induction false} VarianceIsBartlett(r: seq<real>, maxLag: nat, upTo: nat)
    requires r != []
    ensures Product(Scale(r, maxLag), PartialVariance(r, maxLag, upTo))
         == Product((maxLag + 1) as real, AutoProduct(r, 0)) + 2.0 * BartlettSum(r, maxLag + 1, upTo)
  {
    hide Product, AutoProduct, LagTerm;
    var c, n := (maxLag + 1) as real, |r| as real;
    if upTo == 0 {
      ScaledTerm(c, n, AutoProduct(r, 0));
    } else {
      VarianceIsBartlett(r, maxLag, upTo - 1);
      WeightedTerm(r, maxLag, upTo);
      DistributeLeft(Scale(r, maxLag), PartialVariance(r, maxLag, upTo - 1), LagTerm(r, maxLag, upTo));
    }
  }

  /** (L + 1) * n */
  function Scale(r: seq<real>, maxLag: nat): real {
    Product((maxLag + 1) as real, |r| as real)
  }

  lemma DistributeLeft(a: real, b: real, c: real)
    ensures Product(a, b + c) == Product(a, b) + Product(a, c)
  {
  }

  lemma ScaledTerm(c: real, n: real, a: real)
    requires n > 0.0
    ensures Product(Product(c, n), a / n) == Product(c, a)
  {
    assert n * (a / n) == a;
    assert c * n * (a / n) == c * (n * (a / n));
  }

  lemma WeightedTerm(r: seq<real>, maxLag: nat, lag: nat)
    requires r != []
    ensures Product(Scale(r, maxLag), LagTerm(r, maxLag, lag))
         == 2.0 * Product(((maxLag + 1) as real) - (lag as real), AutoProduct(r, lag))
  {
    hide AutoProduct;
    var c, k, n := (maxLag + 1) as real, lag as real, |r| as real;
    var w, g := Weight(lag, maxLag), AutoProduct(r, lag) / n;
    WeightTimes(c, k);
    assert n * g == AutoProduct(r, lag);
    Shuffle(c, n, w, g);
  }

  lemma WeightTimes(c: real, k: real)
    requires c > 0.0
    ensures c * (1.0 - k / c) == c - k
  {
    assert c * (k / c) == k;
  }

  lemma Shuffle(c: real, n: real, w: real, g: real)
    ensures c * n * (2.0 * w * g) == 2.0 * ((c * w) * (n * g))
  {
    assert c * n * (2.0 * w * g) == 2.0 * (c * n * (w * g));
    assert c * n * (w * g) == c * (n * (w * g));
    assert n * (w * g) == w * (n * g);
    assert c * (w * (n * g)) == (c * w) * (n * g);
  }

  // ----- Main results

  /** For every series and every lag count, the variance before the clamp is a sum of squares. */
  lemma VarianceIsSumOfSquares(x: seq<real>, maxLag: int)
    requires x != []
    ensures ((Lags(maxLag) + 1) as real) * (|x| as real) * LongRunVariance(x, maxLag)
         == SquaredWindows(Residuals(x), Lags(maxLag), |x| + Lags(maxLag))
  {
    hide AutoProduct, SquaredWindows, Residuals, BartlettSum, PartialVariance;
    VarianceIsBartlett(Residuals(x), Lags(maxLag), Lags(maxLag));
    WindowsAreBartlett(Residuals(x), Lags(maxLag), |x| + Lags(maxLag));
  }

  lemma VarianceNonNegative(x: seq<real>, maxLag: int)
    requires x != []
    ensures LongRunVariance(x, maxLag) >= 0.0
  {
    hide LongRunVariance, SquaredWindows;
    VarianceIsSumOfSquares(x, maxLag);
    SignOfFactor(((Lags(maxLag) + 1) as real) * (|x| as real), LongRunVariance(x, maxLag));
  }

  lemma SignOfFactor(c: real, v: real)
    requires c > 0.0 && c * v >= 0.0
    ensures v >= 0.0
  {
  }
}

/**
 The scaled forward pass of a hidden Markov model, over exact reals.

 The emission densities enter as a table and the logarithm as a parameter. The pass is compared with
 the sum, over all K^T state paths, of the products
 of initial, transition and emission terms.
 */
module HmmForward {
  import opened Wrappers
  import opened Reals

  datatype Model = Model(pi: seq<real>, trans: seq<seq<real>>, emit: seq<seq<real>>)

  /** Shapes that fit together, over at least one time step. */
  predicate ValidModel(m: Model) {
    && m.emit != []
    && |m.trans| == |m.pi|
    && (forall i :: 0 <= i < |m.trans| ==> |m.trans[i]| == |m.pi|)
    && (forall t :: 0 <= t < |m.emit| ==> |m.emit[t]| == |m.pi|)
  }

  /** Any positive floor will do; the code's is 1e-300. */
  const FLOOR := 1.0 / TenTo(300)

  function TenTo(n: nat): (r: real)
    ensures r > 0.0
  {
    if n == 0 then 1.0 else 10.0 * TenTo(n - 1)
  }

  // ----- The recurrence

  /** The first `n` terms of the inner product of `row` with column `k` of the transition matrix. */
  function Inflow(m: Model, row: seq<real>, k: nat, n: nat): real
    requires ValidModel(m) && |row| == |m.pi| && k < |m.pi| && n <= |m.pi|
  {
    if n == 0 then 0.0 else Inflow(m, row, k, n - 1) + Product(row[n - 1], m.trans[n - 1][k])
  }

  function First(m: Model): (row: seq<real>)
    requires ValidModel(m)
    ensures |row| == |m.pi|
  {
    seq(|m.pi|, k requires 0 <= k < |m.pi| => Product(m.pi[k], m.emit[0][k]))
  }

  function Next(m: Model, t: nat, row: seq<real>): (r: seq<real>)
    requires ValidModel(m) && t < |m.emit| && |row| == |m.pi|
    ensures |r| == |m.pi|
  {
    seq(|m.pi|, k requires 0 <= k < |m.pi| => Product(Inflow(m, row, k, |m.pi|), m.emit[t][k]))
  }

  function Scale(sum: real): (s: real)
    ensures s > 0.0
  {
    if sum < FLOOR then FLOOR else sum
  }

  function Divided(row: seq<real>, s: real): (r: seq<real>)
    requires s != 0.0
    ensures |r| == |row|
  {
    seq(|row|, k requires 0 <= k < |row| => row[k] / s)
  }

  /** Row `t` before it is scaled. */
  function RawRow(m: Model, t: nat): (row: seq<real>)
    requires ValidModel(m) && t < |m.emit|
    ensures |row| == |m.pi|
    decreases t, 0
  {
    if t == 0 then First(m) else Next(m, t, AlphaRow(m, t - 1))
  }

  /** `alpha[t]` */
  function AlphaRow(m: Model, t: nat): (row: seq<real>)
    requires ValidModel(m) && t < |m.emit|
    ensures |row| == |m.pi|
    decreases t, 2
  {
    Divided(RawRow(m, t), ScaleAt(m, t))
  }

  /** `scales[t]` */
  function ScaleAt(m: Model, t: nat): (s: real)
    requires ValidModel(m) && t < |m.emit|
    ensures s > 0.0
    decreases t, 1
  {
    Scale(Sum(RawRow(m, t)))
  }

  function ScaleProduct(m: Model, t: nat): (p: real)
    requires ValidModel(m) && t < |m.emit|
    ensures p > 0.0
  {
    if t == 0 then ScaleAt(m, 0)
    else
      PositiveProduct(ScaleProduct(m, t - 1), ScaleAt(m, t));
      Product(ScaleProduct(m, t - 1), ScaleAt(m, t))
  }

  lemma PositiveProduct(a: real, b: real)
    requires a > 0.0 && b > 0.0
    ensures Product(a, b) > 0.0
  {
  }

  // ----- The two implementations

  datatype Forward = Forward(alpha: array2<real>, scale: array<real>, logLikelihood: real)

  /** The logarithms of the scales up to `t`, added up. */
  function LogScales(ln: real -> real, m: Model, t: nat): real
    requires ValidModel(m) && t < |m.emit|
  {
    if t == 0 then ln(ScaleAt(m, 0)) else LogScales(ln, m, t - 1) + ln(ScaleAt(m, t))
  }

  ghost predicate Computes(ln: real -> real, m: Model, f: Forward)
    requires ValidModel(m)
    reads f.alpha, f.scale
  {
    && f.alpha.Length0 == f.scale.Length == |m.emit| && f.alpha.Length1 == |m.pi|
    && (forall t, k :: 0 <= t < |m.emit| && 0 <= k < |m.pi| ==> f.alpha[t, k] == AlphaRow(m, t)[k])
    && (forall t :: 0 <= t < |m.emit| ==> f.scale[t] == ScaleAt(m, t))
    && f.logLikelihood == LogScales(ln, m, |m.emit| - 1)
  }

  /** Rows and scales before `n` hold their final values. */
  ghost predicate RowsDone(m: Model, alpha: array2<real>, scale: array<real>, n: nat)
    requires ValidModel(m) && n <= |m.emit|
    reads alpha, scale
  {
    && alpha.Length0 == scale.Length == |m.emit| && alpha.Length1 == |m.pi|
    && (forall u, k :: 0 <= u < n && 0 <= k < |m.pi| ==> alpha[u, k] == AlphaRow(m, u)[k])
    && (forall u :: 0 <= u < n ==> scale[u] == ScaleAt(m, u))
  }

  /** The native kernel: nested loops over buffers, with a scratch row. */
  method NativeForward(ln: real -> real, m: Model) returns (r: Option<Forward>)
    ensures r.Some? <==> ValidModel(m) && m.pi != []
    ensures r.Some? ==> Computes(ln, m, r.value)
  {
    hide AlphaRow, ScaleAt, LogScales;
    if !ValidModel(m) || m.pi == [] {
      return None;
    }
    var alpha := new real[|m.emit|, |m.pi|];
    var scale := new real[|m.emit|];
    var tmp := new real[|m.pi|];
    for t := 0 to |m.emit|
      invariant RowsDone(m, alpha, scale, t)
    {
      NativeStep(m, t, alpha, scale, tmp);
    }
    var ll := SumLogs(ln, m, scale);
    return Some(Forward(alpha, scale, ll));
  }

  /** Each log-likelihood is the sum of the scales' logarithms. */
  method SumLogs(ln: real -> real, m: Model, scale: array<real>) returns (ll: real)
    requires ValidModel(m) && scale.Length == |m.emit|
    requires forall t :: 0 <= t < |m.emit| ==> scale[t] == ScaleAt(m, t)
    ensures ll == LogScales(ln, m, |m.emit| - 1)
  {
    hide ScaleAt;
    ll := 0.0;
    for t := 0 to |m.emit|
      invariant ll == if t == 0 then 0.0 else LogScales(ln, m, t - 1)
    {
      ll := ll + ln(scale[t]);
    }
  }

  /** The body of the time loop. */
  method NativeStep(m: Model, t: nat, alpha: array2<real>, scale: array<real>, tmp: array<real>)
    requires ValidModel(m) && t < |m.emit| && RowsDone(m, alpha, scale, t)
    requires tmp.Length == |m.pi| && tmp != scale
    modifies alpha, scale, tmp
    ensures RowsDone(m, alpha, scale, t + 1)
  {
    hide AlphaRow, RawRow, Sum;
    var sum := NativeRow(m, t, alpha, tmp);
    scale[t] := Scale(sum);
    NativeScaleRow(m, t, alpha, tmp, scale[t]);
  }

  /** Fills the scratch row for time `t` and returns its sum. */
  method NativeRow(m: Model, t: nat, alpha: array2<real>, tmp: array<real>) returns (sum: real)
    requires ValidModel(m) && t < |m.emit|
    requires alpha.Length0 == |m.emit| && alpha.Length1 == |m.pi| && tmp.Length == |m.pi|
    requires forall u, k :: 0 <= u < t && 0 <= k < |m.pi| ==> alpha[u, k] == AlphaRow(m, u)[k]
    modifies tmp
    ensures tmp[..] == RawRow(m, t) && sum == Sum(RawRow(m, t))
  {
    hide AlphaRow, Sum, Product;
    sum := 0.0;
    SumPrefix(RawRow(m, t), 0);
    for j := 0 to |m.pi|
      invariant tmp[..j] == RawRow(m, t)[..j]
      invariant sum == Sum(RawRow(m, t)[..j])
    {
      if t == 0 {
        tmp[j] := Product(m.pi[j], m.emit[0][j]);
      } else {
        var flow := 0.0;
        for i := 0 to |m.pi|
          invariant flow == Inflow(m, AlphaRow(m, t - 1), j, i)
        {
          flow := flow + Product(alpha[t - 1, i], m.trans[i][j]);
        }
        tmp[j] := Product(flow, m.emit[t][j]);
      }
      SumPrefix(RawRow(m, t), j + 1);
      sum := sum + tmp[j];
    }
    assert RawRow(m, t)[..|m.pi|] == RawRow(m, t);
  }

  method NativeScaleRow(m: Model, t: nat, alpha: array2<real>, tmp: array<real>, s: real)
    requires ValidModel(m) && t < |m.emit|
    requires alpha.Length0 == |m.emit| && alpha.Length1 == |m.pi| && tmp.Length == |m.pi|
    requires tmp[..] == RawRow(m, t) && s == ScaleAt(m, t)
    modifies alpha
    ensures forall k :: 0 <= k < |m.pi| ==> alpha[t, k] == AlphaRow(m, t)[k]
    ensures forall u, k :: 0 <= u < |m.emit| && u != t && 0 <= k < |m.pi| ==> alpha[u, k] == old(alpha[u, k])
  {
    hide RawRow, ScaleAt;
    for j := 0 to |m.pi|
      invariant forall k :: 0 <= k < j ==> alpha[t, k] == AlphaRow(m, t)[k]
      invariant forall u, k :: 0 <= u < |m.emit| && u != t && 0 <= k < |m.pi| ==> alpha[u, k] == old(alpha[u, k])
    {
      assert tmp[j] == RawRow(m, t)[j];
      alpha[t, j] := tmp[j] / s;
    }
  }

  /** The NumPy fallback: whole rows at a time. */
  method NumpyForward(ln: real -> real, m: Model)
    returns (alpha: array<seq<real>>, scales: array<real>, logLikelihood: real)
    requires ValidModel(m)
    ensures alpha.Length == scales.Length == |m.emit|
    ensures forall t :: 0 <= t < |m.emit| ==> alpha[t] == AlphaRow(m, t) && scales[t] == ScaleAt(m, t)
    ensures logLikelihood == LogScales(ln, m, |m.emit| - 1)
  {
    hide Sum, First, Next, Divided, Scale, RawRow, AlphaRow, ScaleAt;
    var T := |m.emit|;
    alpha := new seq<real>[T](_ => []);
    scales := new real[T];
    RowScaled(m, 0);
    alpha[0] := First(m);
    scales[0] := Scale(Sum(alpha[0]));
    alpha[0] := Divided(alpha[0], scales[0]);
    for t := 1 to T
      invariant fresh(alpha) && fresh(scales)
      invariant forall u :: 0 <= u < t ==> alpha[u] == AlphaRow(m, u) && scales[u] == ScaleAt(m, u)
    {
      RowScaled(m, t);
      alpha[t] := Next(m, t, alpha[t - 1]);
      scales[t] := Scale(Sum(alpha[t]));
      alpha[t] := Divided(alpha[t], scales[t]);
    }
    logLikelihood := SumFlooredLogs(ln, m, scales);
  }

  /** How a row comes from the one before it. */
  lemma RowScaled(m: Model, t: nat)
    requires ValidModel(m) && t < |m.emit|
    ensures var raw := if t == 0 then First(m) else Next(m, t, AlphaRow(m, t - 1));
            ScaleAt(m, t) == Scale(Sum(raw)) && AlphaRow(m, t) == Divided(raw, ScaleAt(m, t))
  {
    hide First, Next, Sum, Divided, Scale;
  }

  /** The NumPy form floors the scales once more before it takes their logarithms. */
  method SumFlooredLogs(ln: real -> real, m: Model, scales: array<real>) returns (sum: real)
    requires ValidModel(m) && scales.Length == |m.emit|
    requires forall t :: 0 <= t < |m.emit| ==> scales[t] == ScaleAt(m, t)
    ensures sum == LogScales(ln, m, |m.emit| - 1)
  {
    hide ScaleAt, Scale;
    sum := 0.0;
    for t := 0 to |m.emit|
      invariant sum == if t == 0 then 0.0 else LogScales(ln, m, t - 1)
    {
      FlooredTwice(m, t);
      sum := sum + ln(Scale(scales[t]));
    }
  }

  lemma FlooredTwice(m: Model, t: nat)
    requires ValidModel(m) && t < |m.emit|
    ensures Scale(ScaleAt(m, t)) == ScaleAt(m, t)
  {
    hide RawRow, Sum, TenTo;
  }

  // ----- The reference: a sum over state paths

  type Path = seq<nat>

  predicate ValidPath(m: Model, p: Path) {
    0 < |p| <= |m.emit| && forall i :: 0 <= i < |p| ==> p[i] < |m.pi|
  }

  /** Initial, transition and emission terms along a path, multiplied. */
  function Weight(m: Model, p: Path): real
    requires ValidModel(m) && ValidPath(m, p)
  {
    var last := |p| - 1;
    if last == 0 then Product(m.pi[p[0]], m.emit[0][p[0]])
    else Product(Product(Weight(m, p[..last]), m.trans[p[last - 1]][p[last]]), m.emit[last][p[last]])
  }

  function Extend(paths: seq<Path>, k: nat): (r: seq<Path>)
    ensures |r| == |paths|
    ensures forall i :: 0 <= i < |r| ==> r[i] == paths[i] + [k]
  {
    seq(|paths|, i requires 0 <= i < |paths| => paths[i] + [k])
  }

  /** The paths through times 0..t over `states` states that end in `k`. */
  function PathsEnding(states: nat, t: nat, k: nat): seq<Path>
    decreases t, 0
  {
    if t == 0 then [[k]] else Extend(PathsUpTo(states, t - 1, states), k)
  }

  /** The paths through times 0..t that end in a state below `n`. */
  function PathsUpTo(states: nat, t: nat, n: nat): seq<Path>
    decreases t, 1, n
  {
    if n == 0 then [] else PathsUpTo(states, t, n - 1) + PathsEnding(states, t, n - 1)
  }

  /** All K^(t+1) paths through times 0..t. */
  function AllPaths(states: nat, t: nat): seq<Path> {
    PathsUpTo(states, t, states)
  }

  predicate AllValid(m: Model, paths: seq<Path>) {
    forall i :: 0 <= i < |paths| ==> ValidPath(m, paths[i])
  }

  function TotalWeight(m: Model, paths: seq<Path>): real
    requires ValidModel(m) && AllValid(m, paths)
  {
    if paths == [] then 0.0 else TotalWeight(m, paths[..|paths| - 1]) + Weight(m, paths[|paths| - 1])
  }

  // ----- AllPaths lists every path once

  /** A path of `t + 1` states below `states`, ending below `n`. */
  predicate IsPath(states: nat, t: nat, n: nat, p: Path) {
    |p| == t + 1 && (forall i :: 0 <= i < |p| ==> p[i] < states) && p[t] < n
  }

  lemma {:induction false} PathsComplete(states: nat, t: nat, n: nat, p: Path)
    requires n <= states
    ensures p in PathsUpTo(states, t, n) <==> IsPath(states, t, n, p)
    decreases t, 1, n
  {
    if n > 0 {
      PathsComplete(states, t, n - 1, p);
      PathsEndingComplete(states, t, n - 1, p);
    }
  }

  lemma {:induction false} PathsEndingComplete(states: nat, t: nat, k: nat, p: Path)
    requires k < states
    ensures p in PathsEnding(states, t, k) <==> IsPath(states, t, states, p) && p[t] == k
    decreases t, 0
  {
    if t == 0 {
      assert IsPath(states, 0, states, p) && p[0] == k ==> p == [k];
    } else {
      var shorter := PathsUpTo(states, t - 1, states);
      if IsPath(states, t, states, p) && p[t] == k {
        PathsComplete(states, t - 1, states, p[..t]);
        var i :| 0 <= i < |shorter| && shorter[i] == p[..t];
        assert p == p[..t] + [k];
        assert Extend(shorter, k)[i] == p;
      }
      if p in Extend(shorter, k) {
        var i :| 0 <= i < |shorter| && Extend(shorter, k)[i] == p;
        PathsComplete(states, t - 1, states, shorter[i]);
      }
    }
  }

  predicate NoRepeats(paths: seq<Path>) {
    forall i, j :: 0 <= i < j < |paths| ==> paths[i] != paths[j]
  }

  lemma {:induction false} PathsOnce(states: nat, t: nat, n: nat)
    requires n <= states
    ensures NoRepeats(PathsUpTo(states, t, n))
    decreases t, 1, n
  {
    if n > 0 {
      var front, back := PathsUpTo(states, t, n - 1), PathsEnding(states, t, n - 1);
      PathsOnce(states, t, n - 1);
      PathsEndingOnce(states, t, n - 1);
      forall i, j | 0 <= i < |front| && 0 <= j < |back|
        ensures front[i] != back[j]
      {
        PathsComplete(states, t, n - 1, front[i]);
        PathsEndingComplete(states, t, n - 1, back[j]);
      }
    }
  }

  lemma {:induction false} PathsEndingOnce(states: nat, t: nat, k: nat)
    ensures NoRepeats(PathsEnding(states, t, k))
    decreases t, 0
  {
    if t > 0 {
      var shorter := PathsUpTo(states, t - 1, states);
      PathsOnce(states, t - 1, states);
      forall i, j | 0 <= i < j < |shorter|
        ensures Extend(shorter, k)[i] != Extend(shorter, k)[j]
      {
        assert (shorter[i] + [k])[..|shorter[i]|] == shorter[i];
        assert (shorter[j] + [k])[..|shorter[j]|] == shorter[j];
        if |shorter[i]| == |shorter[j]| {}
      }
    }
  }

  /** The reference sum ranges over each state path exactly once. */
  lemma AllPathsExact(states: nat, t: nat)
    ensures forall p :: p in AllPaths(states, t) <==> |p| == t + 1 && forall i :: 0 <= i < |p| ==> p[i] < states
    ensures NoRepeats(AllPaths(states, t))
  {
    forall p
      ensures p in AllPaths(states, t) <==> IsPath(states, t, states, p)
    {
      PathsComplete(states, t, states, p);
    }
    PathsOnce(states, t, states);
  }

  // ----- The scaled recurrence computes it

  lemma PathsValid(m: Model, t: nat, n: nat)
    requires ValidModel(m) && t < |m.emit| && n <= |m.pi|
    ensures AllValid(m, PathsUpTo(|m.pi|, t, n))
    ensures n < |m.pi| ==> AllValid(m, PathsEnding(|m.pi|, t, n))
  {
    var paths := PathsUpTo(|m.pi|, t, n);
    forall i | 0 <= i < |paths|
      ensures ValidPath(m, paths[i])
    {
      PathsComplete(|m.pi|, t, n, paths[i]);
    }
    if n < |m.pi| {
      var ending := PathsEnding(|m.pi|, t, n);
      forall i | 0 <= i < |ending|
        ensures ValidPath(m, ending[i])
      {
        PathsEndingComplete(|m.pi|, t, n, ending[i]);
      }
    }
  }

  lemma {:induction false} TotalConcat(m: Model, a: seq<Path>, b: seq<Path>)
    requires ValidModel(m) && AllValid(m, a) && AllValid(m, b)
    ensures AllValid(m, a + b) && TotalWeight(m, a + b) == TotalWeight(m, a) + TotalWeight(m, b)
  {
    hide Weight;
    if b == [] {
      assert a + b == a;
    } else {
      var front := b[..|b| - 1];
      TotalConcat(m, a, front);
      assert (a + b)[..|a + b| - 1] == a + front;
    }
  }

  lemma WeightExtended(m: Model, last: Path, t: nat, i: nat, k: nat)
    requires ValidModel(m) && 0 < t < |m.emit| && i < |m.pi| && k < |m.pi|
    requires ValidPath(m, last) && |last| == t && last[t - 1] == i
    ensures ValidPath(m, last + [k])
    ensures Weight(m, last + [k]) == Product(Product(Weight(m, last), m.trans[i][k]), m.emit[t][k])
  {
    hide Product;
    assert (last + [k])[..t] == last;
  }

  /** Adding one state to paths that all end in `i` multiplies their total. */
  lemma {:induction false} TotalExtend(m: Model, paths: seq<Path>, t: nat, i: nat, k: nat)
    requires ValidModel(m) && 0 < t < |m.emit| && i < |m.pi| && k < |m.pi|
    requires AllValid(m, paths) && forall j :: 0 <= j < |paths| ==> |paths[j]| == t && paths[j][t - 1] == i
    ensures AllValid(m, Extend(paths, k))
    ensures TotalWeight(m, Extend(paths, k)) == Product(Product(TotalWeight(m, paths), m.trans[i][k]), m.emit[t][k])
  {
    hide Product, Weight;
    var ext := Extend(paths, k);
    if paths == [] {
      ProductLaws(0.0, 0.0, m.trans[i][k], m.emit[t][k]);
    } else {
      var front, last := paths[..|paths| - 1], paths[|paths| - 1];
      TotalExtend(m, front, t, i, k);
      assert Extend(front, k) == ext[..|ext| - 1];
      WeightExtended(m, last, t, i, k);
      ProductLaws(TotalWeight(m, front), Weight(m, last), m.trans[i][k], m.emit[t][k]);
    }
  }

  lemma ProductLaws(a: real, b: real, c: real, d: real)
    ensures Product(Product(a + b, c), d) == Product(Product(a, c), d) + Product(Product(b, c), d)
    ensures Product(0.0, c) == 0.0
  {
  }

  lemma ProductMoves(a: real, b: real, c: real)
    ensures Product(Product(a, b), c) == Product(Product(a, c), b) == Product(a, Product(b, c))
    ensures Product(a, b) == Product(b, a)
  {
  }

  lemma DistributeLeft(a: real, b: real, c: real)
    ensures Product(a, b + c) == Product(a, b) + Product(a, c) && Product(a, 0.0) == 0.0
    ensures Product(b + c, a) == Product(b, a) + Product(c, a) && Product(0.0, a) == 0.0
  {
  }

  /** The total weight of the paths that reach state `k` at time `t`. */
  function Reaching(m: Model, t: nat, k: nat): real
    requires ValidModel(m) && t < |m.emit| && k < |m.pi|
  {
    PathsValid(m, t, k);
    TotalWeight(m, PathsEnding(|m.pi|, t, k))
  }

  /** The inner product of the reaching weights at `t` with column `k`, up to state `n`. */
  function ReachingInflow(m: Model, t: nat, k: nat, n: nat): real
    requires ValidModel(m) && t < |m.emit| && k < |m.pi| && n <= |m.pi|
  {
    if n == 0 then 0.0
    else ReachingInflow(m, t, k, n - 1) + Product(Reaching(m, t, n - 1), m.trans[n - 1][k])
  }

  lemma {:induction false} ExtendAll(m: Model, t: nat, k: nat, n: nat)
    requires ValidModel(m) && 0 < t < |m.emit| && k < |m.pi| && n <= |m.pi|
    ensures AllValid(m, Extend(PathsUpTo(|m.pi|, t - 1, n), k))
    ensures TotalWeight(m, Extend(PathsUpTo(|m.pi|, t - 1, n), k))
         == Product(ReachingInflow(m, t - 1, k, n), m.emit[t][k])
  {
    hide Product, Weight, TotalWeight, ValidPath, PathsEnding, Reaching;
    if n == 0 {
      DistributeLeft(m.emit[t][k], 0.0, 0.0);
      assert Extend([], k) == [];
      NothingWeighsNothing(m);
    } else {
      var front, back := PathsUpTo(|m.pi|, t - 1, n - 1), PathsEnding(|m.pi|, t - 1, n - 1);
      ExtendAll(m, t, k, n - 1);
      ExtendEnding(m, t, n - 1, k);
      TotalConcat(m, Extend(front, k), Extend(back, k));
      assert Extend(front + back, k) == Extend(front, k) + Extend(back, k);
      DistributeLeft(m.emit[t][k], ReachingInflow(m, t - 1, k, n - 1),
                     Product(Reaching(m, t - 1, n - 1), m.trans[n - 1][k]));
    }
  }

  lemma NothingWeighsNothing(m: Model)
    requires ValidModel(m)
    ensures AllValid(m, []) && TotalWeight(m, []) == 0.0
  {
  }

  /** Paths ending in `i` at time t - 1, extended by `k`. */
  lemma ExtendEnding(m: Model, t: nat, i: nat, k: nat)
    requires ValidModel(m) && 0 < t < |m.emit| && i < |m.pi| && k < |m.pi|
    ensures AllValid(m, Extend(PathsEnding(|m.pi|, t - 1, i), k))
    ensures TotalWeight(m, Extend(PathsEnding(|m.pi|, t - 1, i), k))
         == Product(Product(Reaching(m, t - 1, i), m.trans[i][k]), m.emit[t][k])
  {
    hide Product, Weight, TotalWeight, PathsEnding;
    var back := PathsEnding(|m.pi|, t - 1, i);
    PathsValid(m, t - 1, i);
    forall j | 0 <= j < |back|
      ensures |back[j]| == t && back[j][t - 1] == i
    {
      PathsEndingComplete(|m.pi|, t - 1, i, back[j]);
    }
    TotalExtend(m, back, t, i, k);
  }

  lemma ReachingStep(m: Model, t: nat, k: nat)
    requires ValidModel(m) && t < |m.emit| && k < |m.pi|
    ensures Reaching(m, t, k) == if t == 0 then Product(m.pi[k], m.emit[0][k])
                                 else Product(ReachingInflow(m, t - 1, k, |m.pi|), m.emit[t][k])
  {
    hide Product;
    PathsValid(m, t, k);
    if t == 0 {
      assert PathsEnding(|m.pi|, 0, k) == [[k]] && [[k]][..0] == [];
      assert TotalWeight(m, [[k]]) == TotalWeight(m, []) + Weight(m, [k]);
    } else {
      ExtendAll(m, t, k, |m.pi|);
    }
  }

  /** Scaling never loses anything: alpha times the scales so far is the weight of the paths. */
  lemma {:induction false} AlphaTimesScales(m: Model, t: nat, k: nat)
    requires ValidModel(m) && t < |m.emit| && k < |m.pi|
    ensures Product(AlphaRow(m, t)[k], ScaleProduct(m, t)) == Reaching(m, t, k)
    decreases t, 0
  {
    hide Product, ScaleAt, Reaching, ReachingInflow;
    var raw, s := RawRow(m, t)[k], ScaleAt(m, t);
    assert AlphaRow(m, t)[k] == raw / s;
    ReachingStep(m, t, k);
    if t == 0 {
      DivideBack(raw, s, 1.0);
    } else {
      var before := ScaleProduct(m, t - 1);
      DivideBack(raw, s, before);
      InflowTimesScales(m, t, k, |m.pi|);
      ProductMoves(Inflow(m, AlphaRow(m, t - 1), k, |m.pi|), m.emit[t][k], before);
    }
  }

  lemma {:induction false} InflowTimesScales(m: Model, t: nat, k: nat, n: nat)
    requires ValidModel(m) && 0 < t < |m.emit| && k < |m.pi| && n <= |m.pi|
    ensures Product(Inflow(m, AlphaRow(m, t - 1), k, n), ScaleProduct(m, t - 1)) == ReachingInflow(m, t - 1, k, n)
    decreases t - 1, 1, n
  {
    hide Product, AlphaRow, ScaleProduct, Reaching;
    var row, before := AlphaRow(m, t - 1), ScaleProduct(m, t - 1);
    if n == 0 {
      DistributeLeft(before, 0.0, 0.0);
    } else {
      InflowTimesScales(m, t, k, n - 1);
      AlphaTimesScales(m, t - 1, n - 1);
      DistributeLeft(before, Inflow(m, row, k, n - 1), Product(row[n - 1], m.trans[n - 1][k]));
      ProductMoves(row[n - 1], m.trans[n - 1][k], before);
    }
  }

  lemma DivideBack(raw: real, s: real, before: real)
    requires s > 0.0
    ensures Product(raw / s, Product(before, s)) == Product(raw, before)
    ensures Product(raw / s, s) == raw
  {
    assert raw / s * s == raw;
    assert raw / s * (before * s) == raw / s * s * before;
  }

  // ----- Row sums and the likelihood

  lemma {:induction false} DividedSum(row: seq<real>, s: real)
    requires s != 0.0
    ensures Sum(Divided(row, s)) == Sum(row) / s
  {
    if row == [] {
    } else {
      var front := row[..|row| - 1];
      DividedSum(front, s);
      assert Divided(row, s)[..|row| - 1] == Divided(front, s);
      assert Sum(front) / s + row[|row| - 1] / s == (Sum(front) + row[|row| - 1]) / s;
    }
  }

  /** A row of alpha sums to 1 exactly when its scale did not hit the floor. */
  lemma RowSumsToOne(m: Model, t: nat)
    requires ValidModel(m) && t < |m.emit|
    ensures Sum(AlphaRow(m, t)) == 1.0 <==> Sum(RawRow(m, t)) >= FLOOR
  {
    hide RawRow, Sum, Divided, TenTo;
    DividedSum(RawRow(m, t), ScaleAt(m, t));
    FloorPositive();
    DividedByScale(Sum(RawRow(m, t)));
  }

  lemma DividedByScale(sum: real)
    requires FLOOR > 0.0
    ensures sum / Scale(sum) == 1.0 <==> sum >= FLOOR
  {
    hide TenTo;
    assert sum / Scale(sum) * Scale(sum) == sum;
  }

  lemma FloorPositive()
    ensures FLOOR > 0.0
  {
    hide TenTo;
    var ten := TenTo(300);
    assert ten > 0.0;
  }

  lemma {:induction false} PathsTotal(m: Model, t: nat, n: nat)
    requires ValidModel(m) && t < |m.emit| && n <= |m.pi|
    ensures AllValid(m, PathsUpTo(|m.pi|, t, n))
    ensures TotalWeight(m, PathsUpTo(|m.pi|, t, n)) == Product(Sum(AlphaRow(m, t)[..n]), ScaleProduct(m, t))
  {
    hide Product, AlphaRow, ScaleProduct, Weight, ValidPath, PathsEnding, Sum;
    SumPrefix(AlphaRow(m, t), n);
    if n == 0 {
      DistributeLeft(ScaleProduct(m, t), 0.0, 0.0);
    } else {
      PathsTotal(m, t, n - 1);
      PathsValid(m, t, n - 1);
      TotalConcat(m, PathsUpTo(|m.pi|, t, n - 1), PathsEnding(|m.pi|, t, n - 1));
      AlphaTimesScales(m, t, n - 1);
      DistributeLeft(ScaleProduct(m, t), Sum(AlphaRow(m, t)[..n - 1]), AlphaRow(m, t)[n - 1]);
    }
  }

  /** P(observations | model), summed over every state path. */
  function Likelihood(m: Model): real
    requires ValidModel(m)
  {
    PathsValid(m, |m.emit| - 1, |m.pi|);
    TotalWeight(m, AllPaths(|m.pi|, |m.emit| - 1))
  }

  /** The product of the scales is the likelihood exactly when the last scale did not hit the
      floor, whatever happened to the earlier ones. */
  lemma ScalesGiveLikelihood(m: Model)
    requires ValidModel(m)
    ensures ScaleProduct(m, |m.emit| - 1) == Likelihood(m) <==> Sum(RawRow(m, |m.emit| - 1)) >= FLOOR
  {
    hide AlphaRow, ScaleProduct, RawRow, PathsUpTo;
    var t := |m.emit| - 1;
    PathsTotal(m, t, |m.pi|);
    assert AlphaRow(m, t)[..|m.pi|] == AlphaRow(m, t);
    RowSumsToOne(m, t);
    TimesOne(Sum(AlphaRow(m, t)), ScaleProduct(m, t));
  }

  lemma TimesOne(a: real, p: real)
    requires p > 0.0
    ensures Product(a, p) == p <==> a == 1.0
  {
    if a != 1.0 {
      assert a * p - p == (a - 1.0) * p;
    }
  }

  // ----- The log-likelihood

  /** Takes products of positive numbers to sums, and grows. */
  ghost predicate IsLog(ln: real -> real) {
    && (forall a, b :: a > 0.0 && b > 0.0 ==> ln(Product(a, b)) == ln(a) + ln(b))
    && (forall a, b :: 0.0 < a < b ==> ln(a) < ln(b))
  }

  lemma {:induction false} LogOfProduct(ln: real -> real, m: Model, t: nat)
    requires IsLog(ln) && ValidModel(m) && t < |m.emit|
    ensures LogScales(ln, m, t) == ln(ScaleProduct(m, t))
  {
    hide ScaleAt, Product;
    if t > 0 {
      LogOfProduct(ln, m, t - 1);
    }
  }

  /** What both kernels return is the logarithm of the likelihood, wherever that has one, exactly when
      the last scale did not hit the floor. */
  lemma LogLikelihoodExactly(ln: real -> real, m: Model)
    requires IsLog(ln) && ValidModel(m) && Likelihood(m) > 0.0
    ensures LogScales(ln, m, |m.emit| - 1) == ln(Likelihood(m)) <==> Sum(RawRow(m, |m.emit| - 1)) >= FLOOR
  {
    hide Likelihood, ScaleProduct, RawRow;
    LogOfProduct(ln, m, |m.emit| - 1);
    ScalesGiveLikelihood(m);
  }
}

/**
 Tie-averaged ranks and the Spearman information coefficient, over exact reals.

 The code ranks by sorting and then averages the ranks within each group of equal values. The
 reference is a count: values below, plus the middle of the values equal.
 */
module Ranks {
  import opened Orders
  import opened Reals

  // ----- The reference

  function Below(a: seq<real>, v: real): (r: seq<real>)
    ensures |r| == |a|
    ensures forall i :: 0 <= i < |a| ==> r[i] == if a[i] < v then 1.0 else 0.0
  {
    seq(|a|, i requires 0 <= i < |a| => if a[i] < v then 1.0 else 0.0)
  }

  function Equal(a: seq<real>, v: real): (r: seq<real>)
    ensures |r| == |a|
    ensures forall i :: 0 <= i < |a| ==> r[i] == if a[i] == v then 1.0 else 0.0
  {
    seq(|a|, i requires 0 <= i < |a| => if a[i] == v then 1.0 else 0.0)
  }

  /** How many values of `a` are smaller than, and equal to, `v`. */
  function CountBelow(a: seq<real>, v: real): real {
    Sum(Below(a, v))
  }

  function CountEqual(a: seq<real>, v: real): real {
    Sum(Equal(a, v))
  }

  function AverageRank(a: seq<real>, v: real): real {
    CountBelow(a, v) + (CountEqual(a, v) + 1.0) / 2.0
  }

  // ----- Ranking by sorting

  /** `order` is some `argsort` of `a`: equal values may stand in any order. */
  ghost predicate ArgSort(a: seq<real>, order: seq<nat>) {
    && Permutation(order, |a|)
    && forall p, q :: 0 <= p < q < |a| ==> a[order[p]] <= a[order[q]]
  }

  /** Ranks by position in the sorted order, before ties are averaged. */
  ghost predicate Positions(order: seq<nat>, ranks: seq<real>)
    requires forall p :: 0 <= p < |order| ==> order[p] < |ranks|
  {
    forall p :: 0 <= p < |order| ==> ranks[order[p]] == (p + 1) as real
  }

  /** Where `a` equals `v`, the entry of `x`; zero elsewhere. */
  function Masked(a: seq<real>, x: seq<real>, v: real): (r: seq<real>)
    requires |x| == |a|
    ensures |r| == |a|
    ensures forall i :: 0 <= i < |a| ==> r[i] == if a[i] == v then x[i] else 0.0
  {
    seq(|a|, i requires 0 <= i < |a| => if a[i] == v then x[i] else 0.0)
  }

  // ----- Sums do not depend on the order of their terms

  /** The terms at positions before `p` whose index is below `k`. */
  function SumBelow(x: seq<real>, order: seq<nat>, k: nat, p: nat): real
    requires p <= |order| && forall q :: 0 <= q < |order| ==> order[q] < |x|
  {
    if p == 0 then 0.0
    else SumBelow(x, order, k, p - 1) + if order[p - 1] < k then x[order[p - 1]] else 0.0
  }

  lemma {:induction false} SumBelowStep(x: seq<real>, order: seq<nat>, k: nat, p: nat)
    requires p <= |order| && Distinct(order) && (forall q :: 0 <= q < |order| ==> order[q] < |x|)
    requires k < |x|
    ensures SumBelow(x, order, k + 1, p) == SumBelow(x, order, k, p) + if k in order[..p] then x[k] else 0.0
  {
    if p > 0 {
      SumBelowStep(x, order, k, p - 1);
      assert order[..p] == order[..p - 1] + [order[p - 1]];
      if order[p - 1] == k {
        assert k !in order[..p - 1];
      }
    }
  }

  lemma {:induction false} SumBelowAll(x: seq<real>, order: seq<nat>, k: nat)
    requires Permutation(order, |x|) && k <= |x|
    ensures SumBelow(x, order, k, |order|) == Sum(x[..k])
  {
    SumPrefix(x, k);
    if k == 0 {
      NoneBelow(x, order, |order|);
    } else {
      SumBelowAll(x, order, k - 1);
      SumBelowStep(x, order, k - 1, |order|);
      assert order[..|order|] == order;
      assert k - 1 in order;
    }
  }

  lemma {:induction false} NoneBelow(x: seq<real>, order: seq<nat>, p: nat)
    requires p <= |order| && forall q :: 0 <= q < |order| ==> order[q] < |x|
    ensures SumBelow(x, order, 0, p) == 0.0
  {
    if p > 0 {
      NoneBelow(x, order, p - 1);
    }
  }

  lemma {:induction false} AllBelow(x: seq<real>, order: seq<nat>, p: nat)
    requires p <= |order| && forall q :: 0 <= q < |order| ==> order[q] < |x|
    ensures SumBelow(x, order, |x|, p) == Sum(Permute(x, order)[..p])
  {
    SumPrefix(Permute(x, order), p);
    if p > 0 {
      AllBelow(x, order, p - 1);
    }
  }

  lemma SumPermuted(x: seq<real>, order: seq<nat>)
    requires Permutation(order, |x|)
    ensures Sum(Permute(x, order)) == Sum(x)
  {
    SumBelowAll(x, order, |x|);
    AllBelow(x, order, |order|);
    assert x[..|x|] == x && Permute(x, order)[..|order|] == Permute(x, order);
  }

  // ----- The ranks of one group of equal values

  lemma {:induction false} SumBounds(x: seq<real>, p: nat)
    requires p <= |x| && forall i :: 0 <= i < |x| ==> x[i] >= 0.0
    ensures 0.0 <= Sum(x[..p]) <= Sum(x)
    decreases |x| - p
  {
    if p == |x| {
      assert x[..p] == x;
      NonNegativeSum(x);
    } else {
      SumBounds(x, p + 1);
      SumPrefix(x, p + 1);
      NonNegativeSum(x[..p]);
    }
  }

  lemma {:induction false} NonNegativeSum(x: seq<real>)
    requires forall i :: 0 <= i < |x| ==> x[i] >= 0.0
    ensures Sum(x) >= 0.0
  {
    if x != [] {
      NonNegativeSum(x[..|x| - 1]);
    }
  }

  /** Sorted values: before a value equal to `v` stand all the smaller ones and only equal ones more. */
  lemma PositionCounts(s: seq<real>, v: real, p: nat)
    requires p <= |s| && forall i, j :: 0 <= i < j < |s| ==> s[i] <= s[j]
    ensures (p == |s| || s[p] >= v) ==> Sum(Below(s, v)[..p]) == CountBelow(s, v)
    ensures (p == 0 || s[p - 1] <= v) ==> Sum(Below(s, v)[..p]) + Sum(Equal(s, v)[..p]) == p as real
  {
    BelowEnds(s, v, p);
    BelowAndEqual(s, v, p);
  }

  lemma {:induction false} BelowEnds(s: seq<real>, v: real, p: nat)
    requires p <= |s| && forall i, j :: 0 <= i < j < |s| ==> s[i] <= s[j]
    ensures (p == |s| || s[p] >= v) ==> Sum(Below(s, v)[..p]) == CountBelow(s, v)
    decreases |s| - p
  {
    if p == |s| {
      assert Below(s, v)[..p] == Below(s, v);
    } else if s[p] >= v {
      assert p + 1 < |s| ==> s[p + 1] >= v;
      BelowEnds(s, v, p + 1);
      SumPrefix(Below(s, v), p + 1);
    }
  }

  lemma {:induction false} BelowAndEqual(s: seq<real>, v: real, p: nat)
    requires p <= |s| && forall i, j :: 0 <= i < j < |s| ==> s[i] <= s[j]
    ensures (p == 0 || s[p - 1] <= v) ==> Sum(Below(s, v)[..p]) + Sum(Equal(s, v)[..p]) == p as real
  {
    if p > 0 {
      SumPrefix(Below(s, v), p);
      SumPrefix(Equal(s, v), p);
      if p > 1 { assert s[p - 2] <= s[p - 1]; }
      BelowAndEqual(s, v, p - 1);
    }
  }

  function PositionRanks(n: nat): (r: seq<real>)
    ensures |r| == n
    ensures forall p :: 0 <= p < n ==> r[p] == (p + 1) as real
  {
    seq(n, p => (p + 1) as real)
  }

  function Triangle(e: real): real {
    e * (e + 1.0) / 2.0
  }

  /** `e` consecutive positions after the first `b`, added up. */
  function GroupTotal(b: real, e: real): real {
    b * e + Triangle(e)
  }

  /** The positions of the values equal to `v`, added up. */
  lemma {:induction false} GroupSum(s: seq<real>, v: real, p: nat)
    requires p <= |s| && forall i, j :: 0 <= i < j < |s| ==> s[i] <= s[j]
    ensures Sum(Masked(s, PositionRanks(|s|), v)[..p]) == GroupTotal(CountBelow(s, v), Sum(Equal(s, v)[..p]))
  {
    hide GroupTotal, Sum, CountBelow;
    SumPrefix(Masked(s, PositionRanks(|s|), v), p);
    SumPrefix(Equal(s, v), p);
    if p == 0 {
      GroupTotalStep(CountBelow(s, v), 0.0);
    } else {
      GroupSum(s, v, p - 1);
      if s[p - 1] == v {
        PositionCounts(s, v, p - 1);
        if p > 1 { assert s[p - 2] <= s[p - 1]; }
        GroupTotalStep(CountBelow(s, v), Sum(Equal(s, v)[..p - 1]));
      }
    }
  }

  lemma GroupTotalStep(b: real, e: real)
    ensures GroupTotal(b, e + 1.0) == GroupTotal(b, e) + (b + e + 1.0)
    ensures GroupTotal(b, 0.0) == 0.0
  {
  }

  /** The mean rank of the values equal to `v`, and their rank when there is only one. */
  lemma GroupMean(a: seq<real>, order: seq<nat>, ranks: seq<real>, i: nat)
    requires ArgSort(a, order) && |ranks| == |a| && Positions(order, ranks) && i < |a|
    ensures CountEqual(a, a[i]) >= 1.0
    ensures Sum(Masked(a, ranks, a[i])) / CountEqual(a, a[i]) == AverageRank(a, a[i])
    ensures CountEqual(a, a[i]) <= 1.0 ==> ranks[i] == AverageRank(a, a[i])
  {
    hide Sum, GroupTotal, CountBelow, CountEqual, Permutation;
    MaskedTotal(a, order, ranks, a[i]);
    GroupPlace(a, order, ranks, i);
    MeanOf(CountBelow(a, a[i]), CountEqual(a, a[i]));
  }

  lemma MaskedTotal(a: seq<real>, order: seq<nat>, ranks: seq<real>, v: real)
    requires ArgSort(a, order) && |ranks| == |a| && Positions(order, ranks)
    ensures Sum(Masked(a, ranks, v)) == GroupTotal(CountBelow(a, v), CountEqual(a, v))
  {
    hide Sum, GroupTotal, CountBelow;
    var s := Permute(a, order);
    SortedCounts(a, order, v);
    SumPermuted(Masked(a, ranks, v), order);
    assert Permute(Masked(a, ranks, v), order) == Masked(s, PositionRanks(|s|), v);
    GroupSum(s, v, |s|);
    assert Masked(s, PositionRanks(|s|), v)[..|s|] == Masked(s, PositionRanks(|s|), v);
    assert Equal(s, v)[..|s|] == Equal(s, v);
  }

  /** A value's own position: after the smaller values, and among at most as many equal ones. */
  lemma GroupPlace(a: seq<real>, order: seq<nat>, ranks: seq<real>, i: nat)
    requires ArgSort(a, order) && |ranks| == |a| && Positions(order, ranks) && i < |a|
    ensures CountEqual(a, a[i]) >= 1.0
    ensures CountEqual(a, a[i]) <= 1.0 ==> ranks[i] == CountBelow(a, a[i]) + 1.0
  {
    hide CountBelow, CountEqual;
    var s := Permute(a, order);
    SortedCounts(a, order, a[i]);
    assert i in order;
    var p :| 0 <= p < |order| && order[p] == i;
    PlaceOf(s, p);
  }

  lemma PlaceOf(s: seq<real>, p: nat)
    requires p < |s| && forall i, j :: 0 <= i < j < |s| ==> s[i] <= s[j]
    ensures CountEqual(s, s[p]) >= 1.0
    ensures CountEqual(s, s[p]) <= 1.0 ==> (p + 1) as real == CountBelow(s, s[p]) + 1.0
  {
    hide Sum;
    var equal := Equal(s, s[p]);
    SumBounds(equal, p + 1);
    SumBounds(equal, p);
    SumPrefix(equal, p + 1);
    if p > 0 { assert s[p - 1] <= s[p]; }
    PositionCounts(s, s[p], p);
  }

  lemma SortedCounts(a: seq<real>, order: seq<nat>, v: real)
    requires Permutation(order, |a|)
    ensures CountBelow(Permute(a, order), v) == CountBelow(a, v)
    ensures CountEqual(Permute(a, order), v) == CountEqual(a, v)
  {
    SumPermuted(Below(a, v), order);
    SumPermuted(Equal(a, v), order);
    assert Permute(Below(a, v), order) == Below(Permute(a, order), v);
    assert Permute(Equal(a, v), order) == Equal(Permute(a, order), v);
  }

  lemma MeanOf(b: real, e: real)
    requires e >= 1.0
    ensures GroupTotal(b, e) / e == b + (e + 1.0) / 2.0
  {
    var mean := b + (e + 1.0) / 2.0;
    assert GroupTotal(b, e) == e * mean;
    Quotient(GroupTotal(b, e), e, mean);
  }

  lemma Quotient(x: real, e: real, c: real)
    requires e > 0.0 && x == e * c
    ensures x / e == c
  {
  }

  // ----- `_rank`

  /** The distinct values, each once. */
  function Unique(a: seq<real>): (u: seq<real>)
    ensures forall v :: v in u <==> v in a
    ensures forall i, j :: 0 <= i < j < |u| ==> u[i] != u[j]
  {
    if a == [] then []
    else
      var front := Unique(a[..|a| - 1]);
      assert a == a[..|a| - 1] + [a[|a| - 1]];
      if a[|a| - 1] in front then front else front + [a[|a| - 1]]
  }

  /** `_rank`, for whichever order `argsort` returns. The groups are disjoint, so the order in
      which `np.unique` lists them does not matter. */
  method Rank(a: seq<real>, order: seq<nat>) returns (ranks: array<real>)
    requires ArgSort(a, order)
    ensures ranks.Length == |a|
    ensures forall i :: 0 <= i < |a| ==> ranks[i] == AverageRank(a, a[i])
  {
    hide AverageRank, Permutation;
    ranks := InitialRanks(a, order);
    ghost var initial := ranks[..];
    var values := Unique(a);
    for k := 0 to |values|
      invariant fresh(ranks) && ranks.Length == |a|
      invariant forall i :: 0 <= i < |a| ==>
        ranks[i] == if a[i] in values[..k] then AverageRank(a, a[i]) else initial[i]
    {
      AverageGroup(a, order, initial, values[k], ranks);
      assert values[..k + 1] == values[..k] + [values[k]];
      assert values[k] !in values[..k];
    }
    assert values[..|values|] == values;
  }

  method InitialRanks(a: seq<real>, order: seq<nat>) returns (ranks: array<real>)
    requires ArgSort(a, order)
    ensures fresh(ranks) && ranks.Length == |a| && Positions(order, ranks[..])
  {
    ranks := new real[|a|];
    for p := 0 to |a|
      invariant forall q :: 0 <= q < p ==> ranks[order[q]] == (q + 1) as real
    {
      ranks[order[p]] := (p + 1) as real;
    }
  }

  /** One group: if it has more than one value, all get the mean of their ranks. */
  method AverageGroup(a: seq<real>, order: seq<nat>, ghost initial: seq<real>, v: real, ranks: array<real>)
    requires ArgSort(a, order) && v in a && ranks.Length == |a| == |initial| && Positions(order, initial)
    requires forall i :: 0 <= i < |a| && a[i] == v ==> ranks[i] == initial[i]
    modifies ranks
    ensures forall i :: 0 <= i < |a| ==> ranks[i] == if a[i] == v then AverageRank(a, v) else old(ranks[i])
  {
    hide AverageRank, CountEqual;
    ghost var i0 :| 0 <= i0 < |a| && a[i0] == v;
    GroupMean(a, order, initial, i0);
    assert Masked(a, ranks[..], v) == Masked(a, initial, v);
    var count := CountEqual(a, v);
    if count > 1.0 {
      var mean := Sum(Masked(a, ranks[..], v)) / count;
      for i := 0 to |a|
        invariant forall j :: 0 <= j < i ==> ranks[j] == if a[j] == v then mean else old(ranks[j])
        invariant forall j :: i <= j < |a| ==> ranks[j] == old(ranks[j])
      {
        if a[i] == v {
          ranks[i] := mean;
        }
      }
    } else {
      forall i | 0 <= i < |a| && a[i] == v
        ensures ranks[i] == AverageRank(a, v)
      {
        GroupMean(a, order, initial, i);
      }
    }
  }

  // ----- What ranks add up to

  function RankVector(a: seq<real>): (r: seq<real>)
    ensures |r| == |a|
    ensures forall i :: 0 <= i < |a| ==> r[i] == AverageRank(a, a[i])
  {
    seq(|a|, i requires 0 <= i < |a| => AverageRank(a, a[i]))
  }

  /** 1 for a smaller value, one half for an equal one: `x` seen from `v`. */
  function Score(x: real, v: real): real {
    if x < v then 1.0 else if x == v then 0.5 else 0.0
  }

  /** The scores from `v` of the first `k` values. */
  function Scores(a: seq<real>, v: real, k: nat): real
    requires k <= |a|
  {
    if k == 0 then 0.0 else Scores(a, v, k - 1) + Score(a[k - 1], v)
  }

  /** The scores that the first `k` values give `w`. */
  function ScoresOf(a: seq<real>, w: real, k: nat): real
    requires k <= |a|
  {
    if k == 0 then 0.0 else ScoresOf(a, w, k - 1) + Score(w, a[k - 1])
  }

  /** Scores among the first `m` values from each of the first `n`. */
  function AllScores(a: seq<real>, n: nat, m: nat): real
    requires n <= |a| && m <= |a|
  {
    if n == 0 then 0.0 else AllScores(a, n - 1, m) + Scores(a, a[n - 1], m)
  }

  lemma {:induction false} RankIsScores(a: seq<real>, v: real, k: nat)
    requires k <= |a|
    ensures Scores(a, v, k) == Sum(Below(a, v)[..k]) + Sum(Equal(a, v)[..k]) / 2.0
  {
    SumPrefix(Below(a, v), k);
    SumPrefix(Equal(a, v), k);
    if k > 0 {
      RankIsScores(a, v, k - 1);
    }
  }

  lemma {:induction false} BothWays(a: seq<real>, v: real, k: nat)
    requires k <= |a|
    ensures Scores(a, v, k) + ScoresOf(a, v, k) == k as real
  {
    if k > 0 {
      BothWays(a, v, k - 1);
    }
  }

  lemma {:induction false} OneMoreColumn(a: seq<real>, n: nat, m: nat)
    requires n <= |a| && m < |a|
    ensures AllScores(a, n, m + 1) == AllScores(a, n, m) + ScoresOf(a, a[m], n)
  {
    if n > 0 {
      OneMoreColumn(a, n - 1, m);
    }
  }

  lemma {:induction false} AllScoresTotal(a: seq<real>, m: nat)
    requires m <= |a|
    ensures AllScores(a, m, m) == (m as real) * (m as real) / 2.0
  {
    if m > 0 {
      AllScoresTotal(a, m - 1);
      OneMoreColumn(a, m - 1, m - 1);
      BothWays(a, a[m - 1], m - 1);
      NextSquare((m - 1) as real);
    }
  }

  lemma NextSquare(m: real)
    ensures (m + 1.0) * (m + 1.0) / 2.0 == m * m / 2.0 + m + 0.5
  {
  }

  lemma {:induction false} RanksAreScores(a: seq<real>, n: nat)
    requires n <= |a|
    ensures Sum(RankVector(a)[..n]) == AllScores(a, n, |a|) + (n as real) / 2.0
  {
    hide Sum, Scores;
    SumPrefix(RankVector(a), n);
    if n > 0 {
      RanksAreScores(a, n - 1);
      RankIsScores(a, a[n - 1], |a|);
      assert Below(a, a[n - 1])[..|a|] == Below(a, a[n - 1]);
      assert Equal(a, a[n - 1])[..|a|] == Equal(a, a[n - 1]);
    }
  }

  /** Ties never change the total: ranks add up to n(n+1)/2. */
  lemma RankTotal(a: seq<real>)
    ensures Sum(RankVector(a)) == Triangle(|a| as real)
  {
    hide Sum, AllScores, RankVector;
    RanksAreScores(a, |a|);
    AllScoresTotal(a, |a|);
    assert RankVector(a)[..|a|] == RankVector(a);
  }

  // ----- The Spearman coefficient

  function Centred(x: seq<real>): (r: seq<real>)
    requires x != []
    ensures |r| == |x|
  {
    seq(|x|, i requires 0 <= i < |x| => x[i] - Sum(x) / (|x| as real))
  }

  datatype Coefficient = Zero | Ratio(num: real, denSquared: real)

  /** `spearman_ic`: the coefficient is `num` over the root of `denSquared`. */
  function SpearmanIc(signals: seq<real>, forward: seq<real>): Coefficient
    requires |signals| == |forward|
  {
    if |signals| < 4 then Zero
    else
      var x, y := Centred(RankVector(signals)), Centred(RankVector(forward));
      var denSquared := Product(Dot(x, x), Dot(y, y));
      if denSquared < 0.000000000000000000000001 then Zero else Ratio(Dot(x, y), denSquared)
  }

  lemma DotLast(x: seq<real>, y: seq<real>, n: nat)
    requires |x| == |y| == n + 1
    ensures Dot(x, y) == Dot(x[..n], y[..n]) + x[n] * y[n]
  {
  }

  lemma {:induction false} CauchySchwarz(x: seq<real>, y: seq<real>)
    requires |x| == |y|
    ensures Dot(x, x) >= 0.0 && Dot(y, y) >= 0.0
    ensures Dot(x, y) * Dot(x, y) <= Dot(x, x) * Dot(y, y)
  {
    if x != [] {
      hide Dot;
      var n := |x| - 1;
      DotLast(x, x, n);
      DotLast(y, y, n);
      DotLast(x, y, n);
      CauchySchwarz(x[..n], y[..n]);
      AddTerm(Dot(x[..n], x[..n]), Dot(y[..n], y[..n]), Dot(x[..n], y[..n]), x[n], y[n]);
    }
  }

  /** From p*p <= xx*yy: adding one term to each sum keeps the inequality. */
  lemma AddTerm(xx: real, yy: real, p: real, a: real, b: real)
    requires xx >= 0.0 && yy >= 0.0 && p * p <= xx * yy
    ensures xx + a * a >= 0.0 && yy + b * b >= 0.0
    ensures (p + a * b) * (p + a * b) <= (xx + a * a) * (yy + b * b)
  {
    CrossTerms(xx, yy, p, a, b);
    SquareOfSum(p, a * b);
    ProductOfSums(xx, a * a, yy, b * b);
    SquareOfProduct(a, b);
  }

  lemma SquareOfSum(p: real, q: real)
    ensures (p + q) * (p + q) == p * p + 2.0 * (p * q) + q * q
  {
  }

  lemma ProductOfSums(x: real, a: real, y: real, b: real)
    ensures (x + a) * (y + b) == x * y + x * b + y * a + a * b
  {
  }

  lemma SquareOfProduct(a: real, b: real)
    ensures (a * b) * (a * b) == (a * a) * (b * b)
  {
    var c := a * b;
    assert c * c == a * (b * c);
    assert b * c == a * (b * b);
    assert a * (a * (b * b)) == (a * a) * (b * b);
  }

  lemma CrossTerms(xx: real, yy: real, p: real, a: real, b: real)
    requires xx >= 0.0 && yy >= 0.0 && p * p <= xx * yy
    ensures 2.0 * (p * (a * b)) <= xx * (b * b) + yy * (a * a)
  {
    var c := a * b;
    var u, w := xx * (b * b), yy * (a * a);
    SquareOfProduct(a, b);
    SquareOfProduct(p, c);
    Interchange(xx, b * b, yy, a * a);
    Scaled(p * p, xx * yy, c * c);
    ArithmeticGeometric(u, w, p * c);
  }

  lemma Interchange(x: real, b: real, y: real, a: real)
    ensures (x * b) * (y * a) == (x * y) * (a * b)
  {
    assert (x * b) * (y * a) == x * (b * (y * a));
    assert b * (y * a) == y * (a * b);
    assert x * (y * (a * b)) == (x * y) * (a * b);
  }

  lemma ArithmeticGeometric(u: real, w: real, q: real)
    requires u >= 0.0 && w >= 0.0 && q * q <= u * w
    ensures 2.0 * q <= u + w
  {
    if 2.0 * q > u + w {
      LargerSquare(u + w, 2.0 * q);
      SquareOfSum(u, w);
      SquareOfSum(u, -w);
      assert false;
    }
  }

  lemma PositiveTimes(a: real, b: real)
    requires a > 0.0 && b > 0.0
    ensures a * b > 0.0
  {
  }

  lemma LargerSquare(s: real, t: real)
    requires 0.0 <= s < t
    ensures s * s < t * t
  {
    PositiveTimes(t - s, t + s);
    assert (t - s) * (t + s) == t * t - s * s;
  }

  /** The coefficient lies in [-1, 1]: its square never exceeds one. */
  lemma SpearmanBounded(signals: seq<real>, forward: seq<real>)
    requires |signals| == |forward|
    ensures var c := SpearmanIc(signals, forward);
            c.Ratio? ==> c.denSquared > 0.0 && c.num * c.num <= c.denSquared
  {
    hide RankVector, Centred, Dot;
    if |signals| >= 4 {
      CauchySchwarz(Centred(RankVector(signals)), Centred(RankVector(forward)));
    }
  }

  /** Only the order of the values matters: order-isomorphic inputs have the same ranks. */
  lemma RanksSeeOnlyOrder(a: seq<real>, b: seq<real>)
    requires |a| == |b|
    requires forall i, j :: 0 <= i < |a| && 0 <= j < |a| ==> (a[i] < a[j] <==> b[i] < b[j])
    ensures RankVector(a) == RankVector(b)
  {
    hide Sum;
    forall i | 0 <= i < |a|
      ensures AverageRank(a, a[i]) == AverageRank(b, b[i])
    {
      SameCounts(a, b, i);
    }
  }

  lemma SameCounts(a: seq<real>, b: seq<real>, i: nat)
    requires |a| == |b| && i < |a|
    requires forall i, j :: 0 <= i < |a| && 0 <= j < |a| ==> (a[i] < a[j] <==> b[i] < b[j])
    ensures Below(a, a[i]) == Below(b, b[i]) && Equal(a, a[i]) == Equal(b, b[i])
  {
    forall j | 0 <= j < |a|
      ensures a[j] < a[i] <==> b[j] < b[i]
      ensures a[j] == a[i] <==> b[j] == b[i]
    {
      assert a[i] < a[j] <==> b[i] < b[j];
    }
  }
}

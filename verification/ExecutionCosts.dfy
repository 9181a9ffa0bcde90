/**
 What an order costs and how large a position may be, told from the configured rates: basis points of
 the price, shares of the notional, fractions of the capital.
 */
module ExecutionCosts {
  import opened ExecutionModel
  import opened Reals

  // ----- Rounding

  /** The nearest integer, and of two equally near ones the even one. */
  lemma NearestExactly(x: real, n: int)
    ensures Nearest(x) == n <==> -0.5 <= n as real - x <= 0.5 && ((n as real - x == 0.5 || x - n as real == 0.5) ==> n % 2 == 0)
  {
  }

  // ----- Commission

  /** A commission is the larger of the minimum and the rates on shares and notional, unless the cap on the
      notional is below both. */
  lemma CommissionExactly(c: Commission, shares: real, price: real)
    requires shares >= 0.0
    ensures var fee, cap := CommissionOn(c, shares, price), shares * price * c.maxPctOfNotional;
            var rates := shares * c.perShare + shares * price * c.pctOfNotional;
            && fee <= cap
            && (fee < cap ==> fee >= c.minPerTrade && fee >= rates && (fee == c.minPerTrade || fee == rates))
            && (fee == cap ==> cap <= c.minPerTrade || cap <= rates)
  {
  }

  // ----- Orders

  /** The shares that may be traded: at most the position where a sale would go short and may not. */
  function MayTrade(cfg: Execution, o: Order): real {
    var asked := if o.desired < 0.0 then -o.desired else o.desired;
    if o.side == Sell && !cfg.allowShort && asked > o.position then (if o.position > 0.0 then o.position else 0.0) else asked
  }

  /** What volume leaves of them: all within the participation limit, otherwise the limit's magnitude. */
  function VolumeLeaves(cfg: Execution, o: Order): real {
    var may, cap := MayTrade(cfg, o), o.avgVolume * cfg.slippage.participationLimit;
    if o.avgVolume > 0.0 && may <= cap then may
    else if cap < 0.0 then -cap
    else if cap < may then cap
    else may
  }

  /** The share of the day's volume the slippage goes by. */
  function Participation(cfg: Execution, o: Order): real {
    if o.avgVolume <= 0.0 then 1.0
    else if VolumeLeaves(cfg, o) / o.avgVolume < cfg.slippage.participationLimit then VolumeLeaves(cfg, o) / o.avgVolume
    else cfg.slippage.participationLimit
  }

  /** Spread and slippage, in basis points of the price. */
  function SpreadPoints(cfg: Execution, o: Order): real {
    (cfg.spread.baseBps + cfg.spread.volMultiplier * o.dailyVol * 10000.0) / 2.0
  }

  function SlippagePoints(cfg: Execution, o: Order): real {
    cfg.slippage.baseBps + cfg.slippage.volatilityFactor * o.dailyVol * 10000.0 * Participation(cfg, o)
  }

  /** So many basis points of the value of `q` shares. */
  function Charge(price: real, points: real, q: real): real {
    price * points / 10000.0 * q
  }

  lemma VolumeLeft(cfg: Execution, o: Order)
    requires Permitted(cfg, o) > 0.0
    ensures Permitted(cfg, o) == MayTrade(cfg, o)
    ensures VolumeFilled(cfg.slippage, Permitted(cfg, o), o.avgVolume) == VolumeLeaves(cfg, o)
  {
  }

  lemma MayTradeIs(cfg: Execution, o: Order)
    ensures Permitted(cfg, o) == MayTrade(cfg, o) && MayTrade(cfg, o) >= 0.0
  {
  }

  lemma SpreadIs(cfg: Execution, o: Order)
    ensures 10000.0 * HalfSpread(cfg.spread, o.price, o.dailyVol) == o.price * SpreadPoints(cfg, o)
  {
    var x := cfg.spread.baseBps + cfg.spread.volMultiplier * o.dailyVol * 10000.0;
    assert o.price * x / 20000.0 * 10000.0 == o.price * (x / 2.0);
  }

  lemma SlippageIs(cfg: Execution, o: Order)
    requires Permitted(cfg, o) > 0.0
    ensures 10000.0 * SlippageOf(cfg, o) == o.price * SlippagePoints(cfg, o)
  {
    hide VolumeFilled, VolumeLeaves, Permitted, MayTrade;
    VolumeLeft(cfg, o);
    LeavesNotNegative(cfg, o);
  }

  lemma LeavesNotNegative(cfg: Execution, o: Order)
    ensures VolumeLeaves(cfg, o) >= 0.0
  {
  }

  /** The price before rounding: above the reference by spread and slippage for a buy, below it for a sale
      but not below its half. */
  lemma PriceExactly(cfg: Execution, o: Order)
    requires Permitted(cfg, o) > 0.0
    ensures var points, p := SpreadPoints(cfg, o) + SlippagePoints(cfg, o), FillPrice(cfg, o);
            && (o.side == Buy ==> 10000.0 * (p - o.price) == o.price * points)
            && (o.side == Sell ==> p >= o.price / 2.0 && 10000.0 * (o.price - p) <= o.price * points
                                   && (p > o.price / 2.0 ==> 10000.0 * (o.price - p) == o.price * points))
  {
    hide SlippageOf, HalfSpread, SpreadPoints, SlippagePoints, Permitted;
    SpreadIs(cfg, o);
    SlippageIs(cfg, o);
    assert o.price * (SpreadPoints(cfg, o) + SlippagePoints(cfg, o))
        == o.price * SpreadPoints(cfg, o) + o.price * SlippagePoints(cfg, o);
  }

  /** The cash a buy may spend. */
  function Spendable(cfg: Execution, o: Order): real {
    o.cash - o.cash * cfg.cashReservePct
  }

  /** The shares before rounding: what volume leaves, and for a buy no more than the spendable cash pays for. */
  lemma QuantityExactly(cfg: Execution, o: Order)
    requires Permitted(cfg, o) > 0.0
    ensures var q, p, left := FillQty(cfg, o), FillPrice(cfg, o), VolumeLeaves(cfg, o);
            && (o.side == Sell ==> q == left)
            && (o.side == Buy && p <= 0.0 ==> q == Min(left, 0.0))
            && (o.side == Buy && p > 0.0 ==> q <= left && q * p <= Spendable(cfg, o) && (q < left ==> q * p == Spendable(cfg, o)))
  {
    hide FillPrice, VolumeFilled, VolumeLeaves, Permitted, MayTrade;
    VolumeLeft(cfg, o);
    if o.side == Buy && FillPrice(cfg, o) > 0.0 {
      Paid(Usable(cfg, o), FillPrice(cfg, o), VolumeLeaves(cfg, o));
      assert Usable(cfg, o) == Spendable(cfg, o);
    }
  }

  lemma Paid(cash: real, price: real, shares: real)
    requires price > 0.0
    ensures cash / price * price == cash
    ensures shares <= cash / price ==> shares * price <= cash
  {
    var r := cash / price;
    assert r * price == cash;
    if shares <= r {
      Scaled(shares, r, price);
    }
  }

  /** An order fills exactly when it is for at least a billionth of a share at a price of at least a
      billionth, and ban, volume and cash leave as much of it. Then its figures are the exact ones, the price
      and the quantity rounded to six digits and the costs to four: the spread and the slippage are their
      basis points of the value at the reference price, and the total is rounded from the exact parts. */
  lemma OrderExactly(cfg: Execution, o: Order)
    requires HalfSpread(cfg.spread, o.price, o.dailyVol) >= 0.0
    ensures var r, q, p := ExecuteOrder(cfg, o), FillQty(cfg, o), FillPrice(cfg, o);
            && (r.Filled? <==>
                  && (o.desired >= 0.000000001 || o.desired <= -0.000000001) && o.price >= 0.000000001
                  && MayTrade(cfg, o) >= 0.000000001 && q >= 0.000000001)
            && (r.Filled? ==>
                  && r.price == Round6(p) && r.qty == Round6(q)
                  && r.commission == Round4(CommissionOn(cfg.commission, q, p))
                  && r.spreadCost == Round4(Charge(o.price, SpreadPoints(cfg, o), q))
                  && r.slippageCost == Round4(Charge(o.price, SlippagePoints(cfg, o), q))
                  && r.totalCost == Round4(CommissionOn(cfg.commission, q, p) + Charge(o.price, SpreadPoints(cfg, o), q)
                                           + Charge(o.price, SlippagePoints(cfg, o), q)))
  {
    hide FillQty, FillPrice, CommissionOn, Round6, Round4, SpreadPoints, SlippagePoints, HalfSpread, SlippageOf,
         VolumeFilled, Affordable, Product, Permitted, MayTrade, Charge;
    MayTradeIs(cfg, o);
    if ExecuteOrder(cfg, o).Filled? {
      FilledCosts(cfg, o);
      FilledOrder(cfg, o);
      SpreadIs(cfg, o);
      SlippageIs(cfg, o);
      AsPoints(HalfSpread(cfg.spread, o.price, o.dailyVol), o.price, SpreadPoints(cfg, o), FillQty(cfg, o));
      AsPoints(SlippageOf(cfg, o), o.price, SlippagePoints(cfg, o), FillQty(cfg, o));
    }
  }

  lemma AsPoints(cost: real, price: real, points: real, q: real)
    requires 10000.0 * cost == price * points
    ensures Product(cost, q) == Charge(price, points, q)
  {
  }

  // ----- Position sizes

  /** The notional each rule asks for: a fraction of the capital; the capital's share whose volatility is the
      target, a fifth standing in for no volatility; half of the Kelly fraction; an equal share. */
  lemma WantedExactly(s: Sizer, capital: real, dailyVol: real, winRate: real, winLoss: real, assets: nat)
    ensures var w, n := Wanted(s, capital, dailyVol, winRate, winLoss, assets), if assets == 0 then 1.0 else assets as real;
            var annual := Product(dailyVol, s.sqrt252);
            && (s.sizing == FixedFractional ==> w == capital * s.riskPerTrade)
            && (s.sizing == VolatilityTarget && annual >= 0.000000001 ==> w * annual * n == capital * s.targetVolatility)
            && (s.sizing == VolatilityTarget && annual < 0.000000001 ==> w * n == 5.0 * (capital * s.targetVolatility))
            && (s.sizing == Kelly ==> 2.0 * w == capital * KellyFraction(winRate, winLoss))
            && (s.sizing == EqualWeight ==> w * n == capital)
  {
    hide Wanted, KellyFraction, TargetShare, Product;
    var n := if assets == 0 then 1.0 else assets as real;
    var annual := Product(dailyVol, s.sqrt252);
    WantedIs(s, capital, dailyVol, winRate, winLoss, assets);
    match s.sizing
    case FixedFractional =>
    case VolatilityTarget =>
      if annual < 0.000000001 {
        VolatilityShare(capital, s.targetVolatility, 0.2, n);
      } else {
        VolatilityShare(capital, s.targetVolatility, annual, n);
      }
    case Kelly =>
    case EqualWeight => Shared(capital, n);
  }

  function TargetShare(capital: real, target: real, vol: real, n: real): real
    requires vol > 0.0 && n > 0.0
  {
    capital * (target / vol) / n
  }

  lemma WantedIs(s: Sizer, capital: real, dailyVol: real, winRate: real, winLoss: real, assets: nat)
    ensures var w, n := Wanted(s, capital, dailyVol, winRate, winLoss, assets), if assets == 0 then 1.0 else assets as real;
            var annual := Product(dailyVol, s.sqrt252);
            && (s.sizing == FixedFractional ==> w == capital * s.riskPerTrade)
            && (s.sizing == VolatilityTarget ==>
                  w == TargetShare(capital, s.targetVolatility, if annual < 0.000000001 then 0.2 else annual, n))
            && (s.sizing == Kelly ==> w == capital * KellyFraction(winRate, winLoss) * 0.5)
            && (s.sizing == EqualWeight ==> w == capital / n)
  {
    hide KellyFraction;
    if s.sizing == VolatilityTarget {
      TargetWanted(s, capital, dailyVol, winRate, winLoss, assets, Product(dailyVol, s.sqrt252));
    }
  }

  lemma TargetWanted(s: Sizer, capital: real, dailyVol: real, winRate: real, winLoss: real, assets: nat, annual: real)
    requires s.sizing == VolatilityTarget && annual == Product(dailyVol, s.sqrt252)
    ensures Wanted(s, capital, dailyVol, winRate, winLoss, assets)
         == TargetShare(capital, s.targetVolatility, if annual < 0.000000001 then 0.2 else annual,
                        if assets == 0 then 1.0 else assets as real)
  {
    hide Product, KellyFraction;
    if annual < 0.000000001 {
    } else {
    }
  }

  lemma VolatilityShare(capital: real, target: real, vol: real, n: real)
    requires vol > 0.0 && n > 0.0
    ensures var w := TargetShare(capital, target, vol, n);
            w * vol * n == capital * target && (vol == 0.2 ==> w * n == 5.0 * (capital * target))
  {
    var part := target / vol;
    assert part * vol == target;
    var x := capital * part;
    Shared(x, n);
    Regrouped(x / n, vol, n);
    assert x * vol == capital * target by { Regrouped(capital, part, vol); }
  }

  lemma Regrouped(a: real, b: real, c: real)
    ensures a * b * c == a * c * b == a * (b * c)
  {
  }

  lemma Shared(x: real, n: real)
    requires n > 0.0
    ensures x / n * n == x
  {
  }

  /** The Kelly fraction: the edge over the odds, where both are kept within sense, between nothing and a half. */
  lemma KellyExactly(winRate: real, winLoss: real)
    ensures var f := KellyFraction(winRate, winLoss);
            var p := if winRate < 0.01 then 0.01 else if winRate > 0.99 then 0.99 else winRate;
            var b := if winLoss < 0.01 then 0.01 else winLoss;
            var edge := p * b - (1.0 - p);
            && (f == 0.0 || f == 0.5 || f * b == edge)
            && (f == 0.0 ==> edge <= 0.0) && (f == 0.5 ==> edge >= 0.5 * b) && 0.0 <= f <= 0.5
  {
    hide KellyFraction, Bounded;
    var p := if winRate < 0.01 then 0.01 else if winRate > 0.99 then 0.99 else winRate;
    var b := if winLoss < 0.01 then 0.01 else winLoss;
    KellyIs(winRate, winLoss);
    EdgeOverOdds(p * b - (1.0 - p), b);
  }

  /** The edge over the odds, between nothing and a half. */
  function Bounded(edge: real, b: real): real
    requires b > 0.0
  {
    Max(0.0, Min(edge / b, 0.5))
  }

  lemma KellyIs(winRate: real, winLoss: real)
    ensures var p := if winRate < 0.01 then 0.01 else if winRate > 0.99 then 0.99 else winRate;
            var b := if winLoss < 0.01 then 0.01 else winLoss;
            KellyFraction(winRate, winLoss) == Bounded(p * b - (1.0 - p), b)
  {
  }

  lemma EdgeOverOdds(edge: real, b: real)
    requires b > 0.0
    ensures var f := Bounded(edge, b);
            && (f == 0.0 || f == 0.5 || f * b == edge)
            && (f == 0.0 ==> edge <= 0.0) && (f == 0.5 ==> edge >= 0.5 * b) && 0.0 <= f <= 0.5
  {
    var r := edge / b;
    assert edge == r * b;
    if r <= 0.0 {
      Scaled(r, 0.0, b);
    }
    if r >= 0.5 {
      Scaled(0.5, r, b);
    }
  }

  /** A size is the smaller of what the rule asks for and the position cap, in shares, rounded to six digits;
      nothing without a price or capital. */
  lemma SharesExactly(s: Sizer, capital: real, price: real, dailyVol: real, winRate: real, winLoss: real, assets: nat)
    returns (exact: real)
    ensures var n := Shares(s, capital, price, dailyVol, winRate, winLoss, assets);
            && (price <= 0.0 || capital <= 0.0 ==> n == 0.0)
            && (price > 0.0 && capital > 0.0 ==>
                  && n == Round6(exact)
                  && exact * price == Min(Wanted(s, capital, dailyVol, winRate, winLoss, assets),
                                          capital * s.maxPositionPct * s.maxLeverage))
  {
    hide Round6, Wanted;
    exact := 0.0;
    if price > 0.0 && capital > 0.0 {
      var wanted, cap := Wanted(s, capital, dailyVol, winRate, winLoss, assets), PositionCap(s, capital);
      exact := Min(wanted / price, cap / price);
      SmallerShare(wanted, cap, price);
    }
  }

  lemma SmallerShare(x: real, y: real, price: real)
    requires price > 0.0
    ensures Min(x / price, y / price) * price == Min(x, y)
  {
    Shared(x, price);
    Shared(y, price);
    var a, b := x / price, y / price;
    if b < a {
      Positive(a - b, price);
    } else {
      Scaled(a, b, price);
    }
  }
}

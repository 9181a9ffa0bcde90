/**
 The execution model: commission, slippage, spread and borrow costs, position sizing, and the fill
 an order gets. Arithmetic is over exact reals; the decimal rounding of the reported figures, half
 to even, is kept. The square root of 252 is a parameter.
 */
module ExecutionModel {
  import opened Reals

  type Ticker = string

  datatype Side = Buy | Sell

  datatype Commission = Commission(perShare: real, pctOfNotional: real, minPerTrade: real, maxPctOfNotional: real)

  datatype Slippage = Slippage(baseBps: real, volatilityFactor: real, participationLimit: real)

  datatype Spread = Spread(baseBps: real, volMultiplier: real)

  datatype Borrow = Borrow(generalRate: real, hardRate: real, hardToBorrow: set<Ticker>)

  datatype Sizing = FixedFractional | VolatilityTarget | Kelly | EqualWeight

  datatype Sizer = Sizer(
    sizing: Sizing,
    riskPerTrade: real,
    targetVolatility: real,
    maxPositionPct: real,
    maxLeverage: real,
    sqrt252: real)

  datatype Execution = Execution(
    commission: Commission,
    slippage: Slippage,
    spread: Spread,
    borrow: Borrow,
    sizer: Sizer,
    delayBars: int,
    allowShort: bool,
    cashReservePct: real)

  datatype Order = Order(
    side: Side,
    desired: real,
    price: real,
    dailyVol: real,
    avgVolume: real,
    cash: real,
    position: real)

  datatype FillResult =
    | Filled(
        price: real,
        qty: real,
        commission: real,
        slippageCost: real,
        spreadCost: real,
        totalCost: real,
        partial: bool)
    | Unfilled(reason: string)

  function Sign(x: real): real {
    if x > 0.0 then 1.0 else if x < 0.0 then -1.0 else 0.0
  }

  // ----- Decimal rounding

  /** The nearest integer, ties to the even one. */
  function Nearest(x: real): int {
    var low := x.Floor;
    var rest := x - low as real;
    if rest < 0.5 || (rest == 0.5 && low % 2 == 0) then low else low + 1
  }

  /** `round(x, 6)` */
  function Round6(x: real): real {
    Nearest(x * 1000000.0) as real / 1000000.0
  }

  /** `round(x, 4)` */
  function Round4(x: real): real {
    Nearest(x * 10000.0) as real / 10000.0
  }

  /** A whole number of millionths. */
  predicate OnGrid(x: real) {
    (x * 1000000.0).Floor as real == x * 1000000.0
  }

  lemma RoundedNear(x: real)
    ensures -0.0000005 <= Round6(x) - x <= 0.0000005
    ensures -0.00005 <= Round4(x) - x <= 0.00005
  {
  }

  lemma RoundedOnGrid(x: real)
    ensures OnGrid(Round6(x))
    ensures OnGrid(x) ==> Round6(x) == x
  {
    assert Round6(x) * 1000000.0 == Nearest(x * 1000000.0) as real;
  }

  /** Rounding cannot pass a grid point. */
  lemma RoundedBelow(x: real, bound: real)
    requires x <= bound && OnGrid(bound)
    ensures Round6(x) <= bound
  {
    var n := (bound * 1000000.0).Floor;
    assert x * 1000000.0 <= n as real;
    assert Nearest(x * 1000000.0) <= n;
  }

  lemma WholeOnGrid(x: real, n: int)
    requires x * 1000000.0 == n as real
    ensures OnGrid(x)
  {
  }

  lemma GridClosed(x: real, y: real)
    requires OnGrid(x) && OnGrid(y)
    ensures OnGrid(x + y) && OnGrid(x - y)
  {
    var m, n := (x * 1000000.0).Floor, (y * 1000000.0).Floor;
    assert x * 1000000.0 == m as real && y * 1000000.0 == n as real;
    hide OnGrid;
    WholeOnGrid(x + y, m + n);
    WholeOnGrid(x - y, m - n);
  }

  // ----- Cost models

  /** `CommissionModel.compute` */
  function CommissionOn(c: Commission, shares: real, price: real): real {
    var notional := Abs(shares) * price;
    Min(Max(c.minPerTrade, Abs(shares) * c.perShare + notional * c.pctOfNotional), notional * c.maxPctOfNotional)
  }

  /** `SlippageModel.compute` */
  function SlippagePerShare(s: Slippage, price: real, shares: real, dailyVol: real, avgVolume: real): real {
    var participation := if avgVolume <= 0.0 then 1.0 else Min(Abs(shares) / avgVolume, s.participationLimit);
    price * (s.baseBps + s.volatilityFactor * dailyVol * 10000.0 * participation) / 10000.0
  }

  function VolumeCap(s: Slippage, avgVolume: real): real {
    avgVolume * s.participationLimit
  }

  /** `SlippageModel.can_fill_fully` */
  predicate CanFillFully(s: Slippage, shares: real, avgVolume: real) {
    avgVolume > 0.0 && Abs(shares) <= VolumeCap(s, avgVolume)
  }

  /** `SlippageModel.partial_fill_qty` */
  function PartialFillQty(s: Slippage, shares: real, avgVolume: real): real {
    Min(Abs(shares), VolumeCap(s, avgVolume)) * Sign(shares)
  }

  /** `SpreadModel.estimate_spread` */
  function HalfSpread(s: Spread, price: real, dailyVol: real): real {
    price * (s.baseBps + s.volMultiplier * dailyVol * 10000.0) / 20000.0
  }

  /** `SpreadModel.adjust_fill_price` */
  function SpreadAdjusted(s: Spread, price: real, dailyVol: real, side: Side): real {
    match side
    case Buy => price + HalfSpread(s, price, dailyVol)
    case Sell => price - HalfSpread(s, price, dailyVol)
  }

  /** `BorrowCostModel.daily_cost` */
  function DailyBorrow(b: Borrow, ticker: Ticker, shares: real, price: real): real {
    if shares >= 0.0 then 0.0
    else Abs(shares) * price * (if ticker in b.hardToBorrow then b.hardRate else b.generalRate) / 252.0
  }

  // ----- Position sizing

  /** The Kelly fraction, between nothing and half of the capital. */
  function KellyFraction(winRate: real, winLoss: real): (f: real)
    ensures 0.0 <= f <= 0.5
  {
    var p := Max(0.01, Min(0.99, winRate));
    var b := Max(0.01, winLoss);
    Max(0.0, Min((p * b - (1.0 - p)) / b, 0.5))
  }

  /** The notional a sizing rule asks for, before the position cap. */
  function Wanted(s: Sizer, capital: real, dailyVol: real, winRate: real, winLoss: real, assets: nat): real {
    var n := if assets > 1 then assets as real else 1.0;
    match s.sizing
    case FixedFractional => capital * s.riskPerTrade
    case VolatilityTarget =>
      var annual := Product(dailyVol, s.sqrt252);
      capital * (s.targetVolatility / (if annual < 0.000000001 then 0.2 else annual)) / n
    case Kelly => capital * KellyFraction(winRate, winLoss) * 0.5
    case EqualWeight => capital / n
  }

  function PositionCap(s: Sizer, capital: real): real {
    capital * s.maxPositionPct * s.maxLeverage
  }

  /** `PositionSizer.compute_shares` */
  function Shares(s: Sizer, capital: real, price: real, dailyVol: real, winRate: real, winLoss: real,
          assets: nat): real {
    if price <= 0.0 || capital <= 0.0 then 0.0
    else
      Round6(Min(Wanted(s, capital, dailyVol, winRate, winLoss, assets) / price, PositionCap(s, capital) / price))
  }

  // ----- Orders

  /** The shares left to trade after the short-selling check. */
  function Permitted(cfg: Execution, o: Order): real {
    var desired := Abs(o.desired);
    if o.side.Sell? && o.position - desired < 0.0 && !cfg.allowShort then Min(desired, Max(0.0, o.position)) else desired
  }

  /** The shares the volume limit lets through. */
  function VolumeFilled(s: Slippage, shares: real, avgVolume: real): real {
    if CanFillFully(s, shares, avgVolume) then shares else Abs(PartialFillQty(s, shares, avgVolume))
  }

  /** The slippage of an order, per share; it goes by the shares left before the cash check. */
  function SlippageOf(cfg: Execution, o: Order): real {
    var qty := VolumeFilled(cfg.slippage, Permitted(cfg, o), o.avgVolume);
    SlippagePerShare(cfg.slippage, o.price, qty, o.dailyVol, o.avgVolume)
  }

  /** The price an order fills at, before rounding. */
  function FillPrice(cfg: Execution, o: Order): real {
    var spread := SpreadAdjusted(cfg.spread, o.price, o.dailyVol, o.side);
    if o.side.Buy? then spread + SlippageOf(cfg, o) else Max(spread - SlippageOf(cfg, o), o.price * 0.5)
  }

  /** The cash that is not held in reserve. */
  function Usable(cfg: Execution, o: Order): real {
    o.cash * (1.0 - cfg.cashReservePct)
  }

  /** The shares the usable cash can buy. */
  function Affordable(cfg: Execution, o: Order): real {
    if FillPrice(cfg, o) > 0.0 then Usable(cfg, o) / FillPrice(cfg, o) else 0.0
  }

  /** The shares an order fills, before rounding. */
  function FillQty(cfg: Execution, o: Order): real {
    var qty := VolumeFilled(cfg.slippage, Permitted(cfg, o), o.avgVolume);
    if o.side.Buy? && qty > Affordable(cfg, o) then Affordable(cfg, o) else qty
  }

  const TINY := 0.000000001

  /** `ExecutionSimulator.execute_order` */
  function ExecuteOrder(cfg: Execution, o: Order): FillResult {
    if Abs(o.desired) < TINY || o.price < TINY then Unfilled("zero order")
    else if Permitted(cfg, o) < TINY then Unfilled("short selling disabled")
    else
      var volume := VolumeFilled(cfg.slippage, Permitted(cfg, o), o.avgVolume);
      var qty, price := FillQty(cfg, o), FillPrice(cfg, o);
      var commission := CommissionOn(cfg.commission, qty, price);
      var spreadCost := Product(Abs(HalfSpread(cfg.spread, o.price, o.dailyVol)), qty);
      var slippageCost := Product(SlippageOf(cfg, o), qty);
      if qty < TINY then Unfilled("insufficient cash or volume")
      else
        Filled(
          Round6(price), Round6(qty), Round4(commission), Round4(slippageCost), Round4(spreadCost),
          Round4(commission + spreadCost + slippageCost),
          !CanFillFully(cfg.slippage, Permitted(cfg, o), o.avgVolume) || (o.side.Buy? && volume > Affordable(cfg, o)))
  }

  // ----- What a fill can be

  /** The volume stage keeps within the order exactly when the cap is no less than its negative, and
      within the cap exactly when the cap is not negative. */
  lemma VolumeStageBounded(s: Slippage, shares: real, avgVolume: real)
    requires shares > 0.0
    ensures VolumeFilled(s, shares, avgVolume) <= shares <==> VolumeCap(s, avgVolume) >= -shares
    ensures VolumeFilled(s, shares, avgVolume) <= VolumeCap(s, avgVolume) <==> VolumeCap(s, avgVolume) >= 0.0
  {
    hide VolumeCap;
  }

  /** What a filled order is, and the bounds every stage leaves on it. */
  lemma FilledOrder(cfg: Execution, o: Order)
    requires ExecuteOrder(cfg, o).Filled?
    ensures var r := ExecuteOrder(cfg, o); var q, p := FillQty(cfg, o), FillPrice(cfg, o);
            && q >= TINY
            && r.qty == Round6(q) && r.price == Round6(p)
            && r.commission == Round4(CommissionOn(cfg.commission, q, p))
            && 0.0 < Permitted(cfg, o) <= Abs(o.desired)
            && q <= VolumeFilled(cfg.slippage, Permitted(cfg, o), o.avgVolume)
            && (o.side.Buy? ==> q <= Affordable(cfg, o))
    ensures FillPrice(cfg, o) > 0.0
  {
    hide VolumeFilled, CommissionOn, Round6, Round4, SlippagePerShare, HalfSpread;
  }

  /** Before rounding, a filled order stays within what was asked for exactly when the volume cap is at
      least minus that, or when the cash of a buyer buys no more; and within the cap exactly when the
      cap is not negative. */
  lemma OverfillsExactly(cfg: Execution, o: Order)
    requires ExecuteOrder(cfg, o).Filled?
    ensures var cap := VolumeCap(cfg.slippage, o.avgVolume);
            && (FillQty(cfg, o) <= Abs(o.desired)
                <==> cap >= -Abs(o.desired) || (o.side.Buy? && Affordable(cfg, o) <= Abs(o.desired)))
            && (FillQty(cfg, o) <= cap <==> cap >= 0.0)
  {
    hide VolumeCap, FillPrice, Affordable, ExecuteOrder, Round6, Round4, CommissionOn;
    FilledOrder(cfg, o);
    VolumeStageBounded(cfg.slippage, Permitted(cfg, o), o.avgVolume);
  }

  /** No fill exceeds the order or the volume cap by more than the rounding of the quantity, half a
      millionth of a share; an order for whole millionths is not exceeded at all. */
  lemma FillWithinLimits(cfg: Execution, o: Order)
    requires VolumeCap(cfg.slippage, o.avgVolume) >= 0.0
    ensures var r := ExecuteOrder(cfg, o); r.Filled? ==>
              && 0.0 <= r.qty <= Abs(o.desired) + 0.0000005
              && r.qty <= VolumeCap(cfg.slippage, o.avgVolume) + 0.0000005
              && (OnGrid(o.desired) ==> r.qty <= Abs(o.desired))
  {
    hide VolumeFilled, FillQty, FillPrice, Affordable, Permitted, OnGrid, Round6, ExecuteOrder, VolumeCap;
    if ExecuteOrder(cfg, o).Filled? {
      FilledOrder(cfg, o);
      VolumeStageBounded(cfg.slippage, Permitted(cfg, o), o.avgVolume);
      RoundedNear(FillQty(cfg, o));
      RoundedNotNegative(FillQty(cfg, o));
      if OnGrid(o.desired) {
        GridAbs(o.desired);
        RoundedBelow(FillQty(cfg, o), Abs(o.desired));
      }
    }
  }

  /** An order that neither the volume cap, nor cash, nor the ban on short sales cuts down is filled. */
  lemma FillsUncapped(cfg: Execution, o: Order)
    requires Abs(o.desired) >= TINY && o.price >= TINY && VolumeCap(cfg.slippage, o.avgVolume) >= Abs(o.desired)
    requires o.side.Sell? ==> cfg.allowShort || Abs(o.desired) <= o.position
    requires o.side.Buy? ==> Affordable(cfg, o) >= Abs(o.desired)
    ensures var r := ExecuteOrder(cfg, o); r.Filled? && r.qty == Round6(Abs(o.desired)) && (o.avgVolume > 0.0 ==> !r.partial)
  {
    hide Affordable, FillPrice, CommissionOn, Round6, Round4, HalfSpread, SlippageOf, Product;
    assert Permitted(cfg, o) == Abs(o.desired);
    assert VolumeFilled(cfg.slippage, Abs(o.desired), o.avgVolume) == Abs(o.desired);
  }

  lemma GridAbs(x: real)
    requires OnGrid(x)
    ensures OnGrid(Abs(x))
  {
    GridClosed(0.0, x);
  }

  lemma RoundedNotNegative(x: real)
    requires x >= 0.0
    ensures Round6(x) >= 0.0
  {
  }

  /** A fill is marked partial exactly when volume or cash made it smaller; being cut down to the
      position by the ban on short sales is not marked. */
  lemma PartialExactly(cfg: Execution, o: Order)
    requires cfg.slippage.participationLimit >= 0.0 && o.avgVolume >= 0.0 && ExecuteOrder(cfg, o).Filled?
    ensures ExecuteOrder(cfg, o).partial <==> FillQty(cfg, o) < Permitted(cfg, o)
  {
    hide Affordable, Permitted, CommissionOn, Round6, Round4, SlippagePerShare, HalfSpread, FillPrice, VolumeCap;
    FilledOrder(cfg, o);
    CapNotNegative(cfg.slippage, o.avgVolume);
  }

  lemma CapNotNegative(s: Slippage, avgVolume: real)
    requires s.participationLimit >= 0.0 && avgVolume >= 0.0
    ensures VolumeCap(s, avgVolume) >= 0.0
    ensures avgVolume == 0.0 ==> VolumeCap(s, avgVolume) == 0.0
  {
    NotNegative(avgVolume, s.participationLimit);
  }

  /** Where spread and slippage are costs, a buy fills at the price or above; a sell at the price or
      below, and at half of it or above. */
  lemma PriceNeverBetter(cfg: Execution, o: Order)
    requires ExecuteOrder(cfg, o).Filled?
    requires HalfSpread(cfg.spread, o.price, o.dailyVol) >= 0.0
    requires forall qty :: SlippagePerShare(cfg.slippage, o.price, qty, o.dailyVol, o.avgVolume) >= 0.0
    ensures o.side.Buy? ==> o.price - 0.0000005 <= ExecuteOrder(cfg, o).price
    ensures o.side.Sell? ==> o.price / 2.0 - 0.0000005 <= ExecuteOrder(cfg, o).price <= o.price + 0.0000005
  {
    hide ExecuteOrder, FillQty, Affordable, Permitted, CommissionOn, Round6, Round4, SlippagePerShare, HalfSpread,
         VolumeFilled;
    FilledOrder(cfg, o);
    PositivePrice(cfg, o);
    RoundedNear(FillPrice(cfg, o));
  }

  lemma PositivePrice(cfg: Execution, o: Order)
    requires ExecuteOrder(cfg, o).Filled?
    ensures o.price >= TINY
  {
    hide FillQty, FillPrice, Affordable, Permitted, CommissionOn, Round6, Round4, SlippagePerShare, HalfSpread,
         VolumeFilled;
  }

  /** What an order's shares cost beyond the reference price, before rounding. */
  function Beyond(cfg: Execution, o: Order): real {
    FillQty(cfg, o) * (FillPrice(cfg, o) - o.price)
  }

  /** The reported costs are what the fill price hides: for a buy, spread and slippage together are
      what the shares cost beyond the reference price; a sell gives up no more than that, and as much
      unless its price was floored. The total is the sum of the parts. All up to rounding. */
  lemma CostsExplainPrice(cfg: Execution, o: Order)
    requires ExecuteOrder(cfg, o).Filled? && HalfSpread(cfg.spread, o.price, o.dailyVol) >= 0.0
    ensures var r := ExecuteOrder(cfg, o);
            && (o.side.Buy? ==> -0.0001 <= r.spreadCost + r.slippageCost - Beyond(cfg, o) <= 0.0001)
            && (o.side.Sell? ==> -Beyond(cfg, o) <= r.spreadCost + r.slippageCost + 0.0001)
            && (o.side.Sell? && FillPrice(cfg, o) > o.price * 0.5 ==> -Beyond(cfg, o) >= r.spreadCost + r.slippageCost - 0.0001)
            && -0.0002 <= r.totalCost - (r.commission + r.spreadCost + r.slippageCost) <= 0.0002
  {
    hide Round6, Round4, CommissionOn, SlippageOf, HalfSpread, FillQty, FillPrice, ExecuteOrder, Product, Beyond;
    var spread := Product(HalfSpread(cfg.spread, o.price, o.dailyVol), FillQty(cfg, o));
    var slip := Product(SlippageOf(cfg, o), FillQty(cfg, o));
    var commission := CommissionOn(cfg.commission, FillQty(cfg, o), FillPrice(cfg, o));
    FilledCosts(cfg, o);
    BeyondParts(cfg, o);
    RoundedNear(commission);
    RoundedNear(spread);
    RoundedNear(slip);
    RoundedNear(commission + spread + slip);
  }

  lemma BeyondParts(cfg: Execution, o: Order)
    requires FillQty(cfg, o) >= 0.0
    ensures var cost := Product(HalfSpread(cfg.spread, o.price, o.dailyVol), FillQty(cfg, o)) + Product(SlippageOf(cfg, o), FillQty(cfg, o));
            && (o.side.Buy? ==> Beyond(cfg, o) == cost)
            && (o.side.Sell? ==> -Beyond(cfg, o) <= cost)
            && (o.side.Sell? && FillPrice(cfg, o) > o.price * 0.5 ==> -Beyond(cfg, o) == cost)
  {
    hide SlippageOf, HalfSpread, FillQty, FillPrice, Product;
    PriceParts(cfg, o);
    CostParts(HalfSpread(cfg.spread, o.price, o.dailyVol), SlippageOf(cfg, o), FillPrice(cfg, o) - o.price, FillQty(cfg, o));
  }

  lemma CostParts(spread: real, slip: real, away: real, qty: real)
    requires qty >= 0.0
    ensures Product(spread, qty) + Product(slip, qty) == Product(spread + slip, qty)
    ensures away == spread + slip ==> qty * away == Product(spread, qty) + Product(slip, qty)
    ensures away >= -(spread + slip) ==> -(qty * away) <= Product(spread, qty) + Product(slip, qty)
    ensures away == -(spread + slip) ==> -(qty * away) == Product(spread, qty) + Product(slip, qty)
  {
    if away >= -(spread + slip) {
      Scaled(-away, spread + slip, qty);
    }
  }

  lemma FilledCosts(cfg: Execution, o: Order)
    requires ExecuteOrder(cfg, o).Filled? && HalfSpread(cfg.spread, o.price, o.dailyVol) >= 0.0
    ensures var r := ExecuteOrder(cfg, o); var qty := FillQty(cfg, o);
            var spread, slip := Product(HalfSpread(cfg.spread, o.price, o.dailyVol), qty), Product(SlippageOf(cfg, o), qty);
            var commission := CommissionOn(cfg.commission, qty, FillPrice(cfg, o));
            && qty >= TINY
            && r.spreadCost == Round4(spread) && r.slippageCost == Round4(slip) && r.commission == Round4(commission)
            && r.totalCost == Round4(commission + spread + slip)
  {
    hide Round4, Round6, CommissionOn, SlippageOf, HalfSpread, VolumeFilled, Permitted, FillQty, FillPrice,
         Affordable, Product;
  }

  lemma PriceParts(cfg: Execution, o: Order)
    ensures var spread, slip := HalfSpread(cfg.spread, o.price, o.dailyVol), SlippageOf(cfg, o);
            && (o.side.Buy? ==> FillPrice(cfg, o) == o.price + (spread + slip))
            && (o.side.Sell? ==> FillPrice(cfg, o) >= o.price - (spread + slip))
            && (o.side.Sell? && FillPrice(cfg, o) > o.price * 0.5 ==> FillPrice(cfg, o) == o.price - (spread + slip))
  {
    hide SlippageOf, HalfSpread;
  }

  /** A negative average volume is not refused: its magnitude becomes the fill, however small the order. */
  lemma NegativeVolumeOverfills(cfg: Execution)
    requires cfg.slippage == Slippage(1.0, 0.0, 0.05) && cfg.spread == Spread(0.0, 0.0)
    ensures var r := ExecuteOrder(cfg, Order(Sell, 1.0, 100.0, 0.0, -1000.0, 0.0, 1.0));
            r.Filled? && r.qty == 50.0
  {
    hide CommissionOn, Round4;
    var o := Order(Sell, 1.0, 100.0, 0.0, -1000.0, 0.0, 1.0);
    assert VolumeFilled(cfg.slippage, 1.0, -1000.0) == 50.0;
    assert FillQty(cfg, o) == 50.0;
    RoundedOnGrid(50.0);
  }

  /** A commission is at most the capped share of the notional. */
  lemma CommissionCapped(c: Commission, shares: real, price: real)
    ensures CommissionOn(c, shares, price) <= Abs(shares) * price * c.maxPctOfNotional
  {
  }

  /** No buy fills unless the cash outside the reserve is positive: never at zero cash or below when
      the reserve is a fraction. */
  lemma BuyNeedsCash(cfg: Execution, o: Order)
    requires o.side.Buy? && ExecuteOrder(cfg, o).Filled?
    ensures Usable(cfg, o) > 0.0
    ensures cfg.cashReservePct <= 1.0 ==> o.cash > 0.0
  {
    hide ExecuteOrder, FillQty, FillPrice, Permitted;
    FilledOrder(cfg, o);
    QuotientSign(Usable(cfg, o), FillPrice(cfg, o));
    ProductSign(o.cash, 1.0 - cfg.cashReservePct);
  }

  lemma QuotientSign(x: real, y: real)
    requires y > 0.0 && x / y > 0.0
    ensures x > 0.0
  {
  }

  lemma ProductSign(x: real, y: real)
    requires x * y > 0.0
    ensures y >= 0.0 ==> x > 0.0
  {
    if y >= 0.0 && x <= 0.0 {
      Scaled(x, 0.0, y);
    }
  }

  /** In exact arithmetic, before the figures are rounded: a buy and its commission cost at most the
      usable cash and the commission cap on it. */
  lemma BuyCost(cfg: Execution, o: Order)
    requires o.side.Buy? && ExecuteOrder(cfg, o).Filled? && cfg.commission.maxPctOfNotional >= 0.0
    ensures var q, p := FillQty(cfg, o), FillPrice(cfg, o);
            && q * p <= Usable(cfg, o)
            && CommissionOn(cfg.commission, q, p) <= Usable(cfg, o) * cfg.commission.maxPctOfNotional
  {
    hide ExecuteOrder, FillQty, FillPrice, CommissionOn, Permitted, Affordable, VolumeFilled, Round6, Round4, Usable;
    FilledOrder(cfg, o);
    AffordableWorth(cfg, o);
    CommissionWithin(cfg.commission, FillQty(cfg, o), FillPrice(cfg, o), Usable(cfg, o));
  }

  lemma AffordableWorth(cfg: Execution, o: Order)
    requires FillPrice(cfg, o) > 0.0 && FillQty(cfg, o) <= Affordable(cfg, o)
    ensures FillQty(cfg, o) * FillPrice(cfg, o) <= Usable(cfg, o)
  {
    hide FillQty, FillPrice, Usable;
    var p := FillPrice(cfg, o);
    Scaled(FillQty(cfg, o), Usable(cfg, o) / p, p);
    assert Usable(cfg, o) / p * p == Usable(cfg, o);
  }

  lemma CommissionWithin(c: Commission, shares: real, price: real, most: real)
    requires shares >= 0.0 && shares * price <= most && c.maxPctOfNotional >= 0.0
    ensures CommissionOn(c, shares, price) <= most * c.maxPctOfNotional
  {
    hide CommissionOn;
    CommissionCapped(c, shares, price);
    Scaled(shares * price, most, c.maxPctOfNotional);
  }

  /** What the rounding of a fill's quantity, price and commission can cost. */
  function Slack(qty: real, price: real): real {
    0.0000005 * (qty + price) + 0.00005000000025
  }

  /** The rounded product against the exact one. */
  lemma RoundedProduct(q: real, p: real)
    requires q >= 0.0 && p >= 0.0
    ensures Round6(q) >= 0.0 && Round6(p) >= 0.0
    ensures Round6(q) * Round6(p) <= q * p + 0.0000005 * (Round6(q) + Round6(p)) + 0.00000000000025
    ensures Round6(q) * Round6(p) >= q * p - 0.0000005 * (Round6(q) + Round6(p)) - 0.00000000000025
  {
    hide Round6, Round4;
    RoundedNear(q);
    RoundedNear(p);
    RoundedNotNegative(q);
    RoundedNotNegative(p);
    ProductsNear(Round6(q), Round6(p), q - Round6(q), p - Round6(p), 0.0000005);
  }

  lemma ProductsNear(x: real, y: real, a: real, b: real, h: real)
    requires x >= 0.0 && y >= 0.0 && h >= 0.0 && -h <= a <= h && -h <= b <= h
    ensures -(h * (x + y) + h * h) <= (x + a) * (y + b) - x * y <= h * (x + y) + h * h
  {
    assert (x + a) * (y + b) - x * y == x * b + a * y + a * b;
    Scaled(b, h, x);
    Scaled(-h, b, x);
    Scaled(a, h, y);
    Scaled(-h, a, y);
    SmallProduct(a, b, h);
  }

  lemma SmallProduct(a: real, b: real, h: real)
    requires -h <= a <= h && -h <= b <= h
    ensures -(h * h) <= a * b <= h * h
  {
    if b >= 0.0 {
      NotNegative(h - a, b);
      NotNegative(h + a, b);
      NotNegative(h - b, h);
    } else {
      NotNegative(h - a, -b);
      NotNegative(h + a, -b);
      NotNegative(h + b, h);
    }
  }

  function NetCost(r: FillResult): real
    requires r.Filled?
  {
    r.qty * r.price + r.commission
  }

  /** A buy leaves cash no lower than minus the commission cap on the cash before it, up to rounding. */
  lemma BuyLeavesCash(cfg: Execution, o: Order)
    requires o.side.Buy? && ExecuteOrder(cfg, o).Filled?
    requires 0.0 <= cfg.cashReservePct <= 1.0 && cfg.commission.maxPctOfNotional >= 0.0
    ensures var r := ExecuteOrder(cfg, o);
            o.cash - NetCost(r) >= -(cfg.commission.maxPctOfNotional * o.cash) - Slack(r.qty, r.price)
  {
    hide ExecuteOrder, FillQty, FillPrice, CommissionOn, Permitted, Affordable, VolumeFilled, Round6, Round4, Usable;
    FilledOrder(cfg, o);
    BuyCost(cfg, o);
    BuyNeedsCash(cfg, o);
    RoundedProduct(FillQty(cfg, o), FillPrice(cfg, o));
    RoundedNear(CommissionOn(cfg.commission, FillQty(cfg, o), FillPrice(cfg, o)));
    UsableWithin(cfg, o);
    Scaled(Usable(cfg, o), o.cash, cfg.commission.maxPctOfNotional);
  }

  lemma UsableWithin(cfg: Execution, o: Order)
    requires o.cash >= 0.0 && cfg.cashReservePct >= 0.0
    ensures Usable(cfg, o) <= o.cash
  {
    Scaled(1.0 - cfg.cashReservePct, 1.0, o.cash);
  }

  /** A sell brings in at least its commission, up to rounding. */
  lemma SellPaysCommission(cfg: Execution, o: Order)
    requires o.side.Sell? && ExecuteOrder(cfg, o).Filled?
    requires cfg.commission.maxPctOfNotional <= 1.0
    ensures var r := ExecuteOrder(cfg, o);
            r.qty * r.price - r.commission >= -Slack(r.qty, r.price)
  {
    hide ExecuteOrder, FillQty, FillPrice, CommissionOn, Permitted, Affordable, VolumeFilled, Round6, Round4;
    FilledOrder(cfg, o);
    var q, p := FillQty(cfg, o), FillPrice(cfg, o);
    CommissionCapped(cfg.commission, q, p);
    Scaled(0.0, q, p);
    Scaled(cfg.commission.maxPctOfNotional, 1.0, q * p);
    RoundedProduct(q, p);
    RoundedNear(CommissionOn(cfg.commission, q, p));
  }

  /** When short sales are disabled or no more than the position is asked for, a sell that fills takes
      no more than the position, before rounding, exactly when the volume cap is at least minus the
      position. */
  lemma SellWithinPositionExactly(cfg: Execution, o: Order)
    requires o.side.Sell? && ExecuteOrder(cfg, o).Filled?
    requires !cfg.allowShort || Abs(o.desired) <= o.position
    ensures FillQty(cfg, o) <= o.position <==> VolumeCap(cfg.slippage, o.avgVolume) >= -o.position
  {
    hide VolumeCap, FillPrice, Affordable, ExecuteOrder, Round6, Round4, CommissionOn;
    FilledOrder(cfg, o);
  }

  /** Under that condition rounding does not take a whole-millionth position below zero either. */
  lemma SellWithinPosition(cfg: Execution, o: Order)
    requires o.side.Sell? && ExecuteOrder(cfg, o).Filled?
    requires OnGrid(o.position) && VolumeCap(cfg.slippage, o.avgVolume) >= -o.position
    requires !cfg.allowShort || Abs(o.desired) <= o.position
    ensures ExecuteOrder(cfg, o).qty <= o.position
  {
    hide ExecuteOrder, FillQty, FillPrice, Affordable, VolumeFilled, Round6, OnGrid, VolumeCap, Permitted;
    FilledOrder(cfg, o);
    SellWithinPositionExactly(cfg, o);
    RoundedBelow(FillQty(cfg, o), o.position);
  }

  // ----- What a sizer can ask for

  /** Whatever the rule, a size is a whole number of millionths, worth no more than the position cap
      up to rounding; Kelly sizing never takes more than a quarter of the capital. */
  lemma SharesBounded(s: Sizer, capital: real, price: real, dailyVol: real, winRate: real, winLoss: real, assets: nat)
    requires price > 0.0 && capital > 0.0
    ensures var n := Shares(s, capital, price, dailyVol, winRate, winLoss, assets);
            && OnGrid(n)
            && n * price <= PositionCap(s, capital) + 0.0000005 * price
            && (s.sizing.Kelly? ==> n * price <= capital / 4.0 + 0.0000005 * price)
  {
    hide Round6, Wanted, PositionCap, OnGrid, Shares;
    var wanted := SharesWorth(s, capital, price, dailyVol, winRate, winLoss, assets);
    if s.sizing.Kelly? {
      KellyWanted(s, capital, dailyVol, winRate, winLoss, assets);
    }
  }

  lemma SharesWorth(s: Sizer, capital: real, price: real, dailyVol: real, winRate: real, winLoss: real, assets: nat)
    returns (wanted: real)
    requires price > 0.0 && capital > 0.0
    ensures wanted == Wanted(s, capital, dailyVol, winRate, winLoss, assets)
    ensures var n := Shares(s, capital, price, dailyVol, winRate, winLoss, assets);
            OnGrid(n) && n * price <= PositionCap(s, capital) + 0.0000005 * price && n * price <= wanted + 0.0000005 * price
  {
    hide Round6, Wanted, PositionCap, OnGrid;
    wanted := Wanted(s, capital, dailyVol, winRate, winLoss, assets);
    RoundedWorth(wanted, PositionCap(s, capital), price);
  }

  lemma RoundedWorth(wanted: real, cap: real, price: real)
    requires price > 0.0
    ensures var n := Round6(Min(wanted / price, cap / price));
            OnGrid(n) && n * price <= cap + 0.0000005 * price && n * price <= wanted + 0.0000005 * price
  {
    hide Round6, Round4, OnGrid;
    var exact := Min(wanted / price, cap / price);
    RoundedNear(exact);
    RoundedOnGrid(exact);
    WorthAtMost(Round6(exact), cap, price);
    WorthAtMost(Round6(exact), wanted, price);
  }

  lemma WorthAtMost(n: real, notional: real, price: real)
    requires price > 0.0 && n <= notional / price + 0.0000005
    ensures n * price <= notional + 0.0000005 * price
  {
    var exact := notional / price;
    assert exact * price == notional;
    Scaled(n, exact + 0.0000005, price);
  }

  lemma KellyWanted(s: Sizer, capital: real, dailyVol: real, winRate: real, winLoss: real, assets: nat)
    requires s.sizing.Kelly? && capital > 0.0
    ensures Wanted(s, capital, dailyVol, winRate, winLoss, assets) <= capital / 4.0
  {
    var f := KellyFraction(winRate, winLoss);
    Scaled(f, 0.5, capital);
  }
}

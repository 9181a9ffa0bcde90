/**
 The event-driven backtester: signals at a bar's close become orders that fill at the next bar.

 A strategy sees the whole price panel, because one of them precomputes its series from it; that
 no decision depends on later bars is therefore a property to state, not one given by types. The
 standard deviations the code takes of recent returns are parameters.
 */
module EventBacktest {
  import opened Wrappers
  import opened OrderedMaps
  import opened Portfolios
  import opened Reals

  type Panel = map<Ticker, seq<real>>
  type History = map<Ticker, seq<real>>

  datatype Signal = Signal(ticker: Ticker, strength: real, direction: int)

  datatype Order = Order(timestamp: int, ticker: Ticker, qty: real)

  datatype CostModel = CostModel(
    commissionPct: real,
    spreadBps: real,
    impactBps: real,
    borrowRate: real,
    minCommission: real)

  datatype Sizer =
    | FixedFractional(fraction: real)
    | VolatilityTarget(targetVol: real, lookback: nat, assetVol: seq<real> -> real)

  /** From the panel, the strategy's own counter, the bar, the ticker asked about and the closes so
      far: the signals and the new counter. */
  type Decide = (Panel, int, nat, Ticker, History) -> (seq<Signal>, int)

  datatype Config = Config(
    tickers: seq<Ticker>,
    initial: real,
    cost: CostModel,
    allowShort: bool,
    leverageLimit: real,
    sizer: Sizer,
    decide: Decide,
    volatility: seq<real> -> real)

  // ----- Fills

  /** What spread and impact add to the price of a buy, and take from that of a sell. */
  function PriceMove(c: CostModel, open: real, dailyVol: real): real {
    open * (c.spreadBps / 10000.0) + open * (c.impactBps / 10000.0) * (dailyVol / 0.01)
  }

  /** A rate on the notional. */
  function ShareOf(qty: real, price: real, rate: real): real {
    Abs(qty) * price * rate
  }

  /** `TransactionCostModel.compute_fill` */
  function ComputeFill(c: CostModel, o: Order, open: real, dailyVol: real): Fill {
    var move := PriceMove(c, open, dailyVol);
    var price := if o.qty > 0.0 then open + move else open - move;
    Fill(o.timestamp, o.ticker, o.qty, price,
         Max(ShareOf(o.qty, price, c.commissionPct), c.minCommission),
         Abs(o.qty) * move,
         if o.qty < 0.0 then ShareOf(o.qty, price, c.borrowRate / 252.0) else 0.0)
  }

  function Closes(h: History, t: Ticker): seq<real> {
    if t in h then h[t] else []
  }

  function DailyVol(cfg: Config, h: seq<real>): real {
    if |h| >= 12 then Max(cfg.volatility(h[|h| - 12..]), 0.000001) else 0.01
  }

  /** The size of a position at a price. */
  function AtMarket(q: real, price: real): real {
    Abs(q) * price
  }

  function GrossOf(prices: Prices): (Ticker, real) -> real {
    (t, q) => AtMarket(q, PriceOf(prices, t))
  }

  /** Gross exposure at `prices`: the sum of position sizes at market. */
  function Gross(m: Positions, prices: Prices): real {
    Total(m, GrossOf(prices))
  }

  function GrossIf(prices: Prices, ticker: Ticker, qty: real): (Ticker, real) -> real {
    (t, q) => AtMarket(q + (if t == ticker then qty else 0.0), PriceOf(prices, t))
  }

  /** The projected notional the leverage check computes. */
  function Projected(m: Positions, prices: Prices, ticker: Ticker, qty: real): real {
    Total(m, GrossIf(prices, ticker, qty)) + if Has(m, ticker) then 0.0 else AtMarket(qty, PriceOf(prices, ticker))
  }

  /** The equity the leverage check divides by. */
  function EquityBase(b: Book): real {
    Max(if b.equity == [] then 0.0 else b.equity[|b.equity| - 1], 0.000000001)
  }

  predicate OverLeverage(cfg: Config, b: Book, prices: Prices, ticker: Ticker, qty: real) {
    Projected(b.positions, prices, ticker, qty) / EquityBase(b) > cfg.leverageLimit + 0.000000001
  }

  /** The fill a pending order gets, if any. */
  function FillFor(cfg: Config, b: Book, prices: Prices, h: History, o: Order): Option<Fill> {
    var open := PriceOf(prices, o.ticker);
    if open <= 0.0 then None
    else
      var vol := DailyVol(cfg, Closes(h, o.ticker));
      if OverLeverage(cfg, b, prices, o.ticker, o.qty) then None
      else
        var held := Held(b.positions, o.ticker);
        var capped := o.qty < 0.0 && !cfg.allowShort && held + o.qty < 0.0;
        var fill := ComputeFill(cfg.cost, if capped then o.(qty := -held) else o, open, vol);
        if Abs(fill.qty) > 0.000001 then Some(fill) else None
  }

  function AfterOrder(cfg: Config, b: Book, prices: Prices, h: History, o: Order): Book {
    match FillFor(cfg, b, prices, h, o)
    case None => b
    case Some(f) => AfterFill(b, f)
  }

  function AfterOrders(cfg: Config, b: Book, prices: Prices, h: History, orders: seq<Order>): Book
    decreases orders
  {
    if orders == [] then b else AfterOrders(cfg, AfterOrder(cfg, b, prices, h, orders[0]), prices, h, orders[1..])
  }

  // ----- Orders

  function SimpleReturns(h: seq<real>): (r: seq<real>)
    ensures |r| == if h == [] then 0 else |h| - 1
  {
    if |h| <= 1 then []
    else SimpleReturns(h[..|h| - 1]) + [(h[|h| - 1] - h[|h| - 2]) / Max(h[|h| - 2], 0.000000001)]
  }

  /** At most five times the equity, and then at most a quarter of it. */
  function TargetValue(equity: real, targetVol: real, vol: real): real
    requires vol > 0.0
  {
    Min(Product(equity, Min(targetVol / vol, 5.0)), equity * 0.25)
  }

  /** The two sizers. */
  function Size(s: Sizer, signal: Signal, price: real, equity: real, h: seq<real>): real {
    if price <= 0.0 then 0.0 else
    match s
    case FixedFractional(fraction) => (signal.direction as real) * (equity * fraction * Abs(signal.strength)) / price
    case VolatilityTarget(targetVol, lookback, assetVol) =>
      var rets := if |h| > 2 then SimpleReturns(h) else [];
      if |rets| < lookback then 0.0
      else
        var vol := assetVol(rets[|rets| - lookback..]);
        if vol < 0.000000001 then 0.0
        else (signal.direction as real) * TargetValue(equity, targetVol, vol) / price
  }

  /** The order a signal is turned into, if any. */
  function Staged(cfg: Config, b: Book, bar: nat, prices: Prices, h: History, s: Signal): Option<Order> {
    var price := PriceOf(prices, s.ticker);
    if price <= 0.0 then None
    else
      var equity := if b.equity == [] then cfg.initial else b.equity[|b.equity| - 1];
      var qty := Size(cfg.sizer, s, price, equity, Closes(h, s.ticker));
      if Abs(qty) < 0.0001 then None
      else if s.direction == 0 then
        var flat := -Held(b.positions, s.ticker);
        if Abs(flat) < 0.0001 then None else Some(Order(bar, s.ticker, flat))
      else Some(Order(bar, s.ticker, qty))
  }

  function AllStaged(cfg: Config, b: Book, bar: nat, prices: Prices, h: History, signals: seq<Signal>): seq<Order> {
    if signals == [] then []
    else
      AllStaged(cfg, b, bar, prices, h, signals[..|signals| - 1])
      + match Staged(cfg, b, bar, prices, h, signals[|signals| - 1])
        case None => []
        case Some(o) => [o]
  }

  /** Every ticker's signals, in order; the strategy's counter goes through all of them. */
  function AllSignals(cfg: Config, panel: Panel, counter: int, bar: nat, n: nat, h: History): (seq<Signal>, int)
    requires n <= |cfg.tickers|
  {
    if n == 0 then ([], counter)
    else
      var (before, c) := AllSignals(cfg, panel, counter, bar, n - 1, h);
      var (more, c') := cfg.decide(panel, c, bar, cfg.tickers[n - 1], h);
      (before + more, c')
  }

  // ----- The main loop

  datatype Sim = Sim(book: Book, pending: seq<Order>, history: History, counter: int)

  /** Date-aligned prices for every ticker, `n` bars long. */
  predicate Aligned(cfg: Config, panel: Panel, n: nat) {
    forall i :: 0 <= i < |cfg.tickers| ==> cfg.tickers[i] in panel && |panel[cfg.tickers[i]]| == n
  }

  function PricesAt(cfg: Config, panel: Panel, bar: nat): Prices
    requires forall i :: 0 <= i < |cfg.tickers| ==> cfg.tickers[i] in panel && bar < |panel[cfg.tickers[i]]|
  {
    map t | t in cfg.tickers :: panel[t][bar]
  }

  /** The histories after the first `k` listed tickers have got their close; one that is listed twice
      gets two. */
  function ExtendedBy(cfg: Config, h: History, prices: Prices, k: nat): History
    requires k <= |cfg.tickers|
  {
    if k == 0 then h
    else
      var before, t := ExtendedBy(cfg, h, prices, k - 1), cfg.tickers[k - 1];
      before[t := Closes(before, t) + [PriceOf(prices, t)]]
  }

  function Extended(cfg: Config, h: History, prices: Prices): History {
    ExtendedBy(cfg, h, prices, |cfg.tickers|)
  }

  function Opened(cfg: Config): Sim {
    Sim(Opening(cfg.initial), [], map t | t in cfg.tickers :: [], 0)
  }

  /** One bar. */
  function Step(cfg: Config, s: Sim, panel: Panel, bar: nat): Sim
    requires forall i :: 0 <= i < |cfg.tickers| ==> cfg.tickers[i] in panel && bar < |panel[cfg.tickers[i]]|
  {
    var prices := PricesAt(cfg, panel, bar);
    var accrued := AfterBorrow(s.book, prices, cfg.cost.borrowRate);
    var filled := if bar > 0 then AfterOrders(cfg, accrued, prices, s.history, s.pending) else accrued;
    var pending := if bar > 0 then [] else s.pending;
    var history := Extended(cfg, s.history, prices);
    var (signals, counter) := AllSignals(cfg, panel, s.counter, bar, |cfg.tickers|, history);
    var orders := pending + AllStaged(cfg, filled, bar, prices, history, signals);
    Sim(AfterMark(filled, prices), orders, history, counter)
  }

  /** The simulation after the first `bars` bars. */
  function RunTo(cfg: Config, panel: Panel, n: nat, bars: nat): Sim
    requires Aligned(cfg, panel, n) && bars <= n
    decreases bars
  {
    if bars == 0 then Opened(cfg) else Step(cfg, RunTo(cfg, panel, n, bars - 1), panel, bars - 1)
  }

  /** `run_event_backtest` up to the performance figures: None where the arrays are not aligned. */
  method RunEventBacktest(cfg: Config, panel: Panel) returns (result: Option<(Portfolio, nat)>)
    ensures result.Some? <==> cfg.tickers != [] && exists n :: Aligned(cfg, panel, n)
    ensures result.Some? ==> Aligned(cfg, panel, result.value.1)
    ensures result.Some? ==> result.value.0.Abstract() == RunTo(cfg, panel, result.value.1, result.value.1).book
  {
    hide AfterBorrow, AfterMark, AfterOrders, AllSignals, AllStaged, Opening, Extended;
    if cfg.tickers == [] {
      return None;
    }
    assert forall n :: Aligned(cfg, panel, n) ==> cfg.tickers[0] in panel && n == |panel[cfg.tickers[0]]|;
    if cfg.tickers[0] !in panel || !Aligned(cfg, panel, |panel[cfg.tickers[0]]|) {
      return None;
    }
    var n := |panel[cfg.tickers[0]]|;
    var p := new Portfolio(cfg.initial);
    var pending: seq<Order> := [];
    var history: History := map t | t in cfg.tickers :: [];
    var counter := 0;
    for bar := 0 to n
      invariant fresh(p)
      invariant Sim(p.Abstract(), pending, history, counter) == RunTo(cfg, panel, n, bar)
    {
      var prices := PricesAt(cfg, panel, bar);
      var _ := p.AccrueBorrow(prices, cfg.cost.borrowRate);
      if bar > 0 && pending != [] {
        FillPending(cfg, p, prices, history, pending);
        pending := [];
      } else {
        NoOrders(cfg, p.Abstract(), prices, history);
      }
      history := Record(cfg, history, prices);
      var signals, next := GatherSignals(cfg, panel, counter, bar, history);
      counter := next;
      var staged := StageOrders(cfg, p, bar, prices, history, signals);
      pending := pending + staged;
      var _ := p.UpdateEquity(prices);
    }
    return Some((p, n));
  }

  /** The loop that appends the bar's closes. */
  method Record(cfg: Config, h: History, prices: Prices) returns (history: History)
    ensures history == Extended(cfg, h, prices)
  {
    history := h;
    for k := 0 to |cfg.tickers|
      invariant history == ExtendedBy(cfg, h, prices, k)
    {
      var t := cfg.tickers[k];
      history := history[t := Closes(history, t) + [PriceOf(prices, t)]];
    }
  }

  /** The loop that asks the strategy about every listed ticker. */
  method GatherSignals(cfg: Config, panel: Panel, before: int, bar: nat, h: History)
    returns (signals: seq<Signal>, counter: int)
    ensures (signals, counter) == AllSignals(cfg, panel, before, bar, |cfg.tickers|, h)
  {
    signals, counter := [], before;
    for k := 0 to |cfg.tickers|
      invariant (signals, counter) == AllSignals(cfg, panel, before, bar, k, h)
    {
      var (more, next) := cfg.decide(panel, counter, bar, cfg.tickers[k], h);
      signals, counter := signals + more, next;
    }
  }

  /** The loop that turns signals into orders for the next bar. */
  method StageOrders(cfg: Config, p: Portfolio, bar: nat, prices: Prices, h: History, signals: seq<Signal>)
    returns (orders: seq<Order>)
    ensures orders == AllStaged(cfg, p.Abstract(), bar, prices, h, signals)
  {
    hide Staged;
    orders := [];
    for k := 0 to |signals|
      invariant orders == AllStaged(cfg, p.Abstract(), bar, prices, h, signals[..k])
    {
      assert signals[..k + 1][..k] == signals[..k];
      var order := Staged(cfg, p.Abstract(), bar, prices, h, signals[k]);
      if order.Some? {
        orders := orders + [order.value];
      }
    }
    assert signals[..|signals|] == signals;
  }

  lemma NoOrders(cfg: Config, b: Book, prices: Prices, h: History)
    ensures AfterOrders(cfg, b, prices, h, []) == b
  {
  }

  method FillPending(cfg: Config, p: Portfolio, prices: Prices, h: History, orders: seq<Order>)
    modifies p
    ensures p.Abstract() == AfterOrders(cfg, old(p.Abstract()), prices, h, orders)
  {
    hide FillFor, AfterFill;
    assert orders[0..] == orders;
    for i := 0 to |orders|
      invariant AfterOrders(cfg, p.Abstract(), prices, h, orders[i..]) == AfterOrders(cfg, old(p.Abstract()), prices, h, orders)
    {
      assert orders[i..][0] == orders[i] && orders[i..][1..] == orders[i + 1..];
      var fill := FillFor(cfg, p.Abstract(), prices, h, orders[i]);
      if fill.Some? {
        p.ProcessFill(fill.value);
      }
    }
  }

  // ----- No look-ahead

  /** Two panels that agree on bars 0..t. */
  predicate AgreeUpTo(a: Panel, b: Panel, tickers: seq<Ticker>, t: nat) {
    forall i :: 0 <= i < |tickers| ==>
      tickers[i] in a && tickers[i] in b && t < |a[tickers[i]]| && t < |b[tickers[i]]|
      && a[tickers[i]][..t + 1] == b[tickers[i]][..t + 1]
  }

  /** A decision at bar `t` depends on the panel only through bars 0..t. */
  ghost predicate Causal(decide: Decide, tickers: seq<Ticker>) {
    forall a, b, t: nat, c, ticker, h :: AgreeUpTo(a, b, tickers, t) && ticker in tickers ==>
      decide(a, c, t, ticker, h) == decide(b, c, t, ticker, h)
  }

  lemma AgreeEarlier(a: Panel, b: Panel, tickers: seq<Ticker>, t: nat, u: nat)
    requires AgreeUpTo(a, b, tickers, t) && u <= t
    ensures AgreeUpTo(a, b, tickers, u)
  {
    forall i | 0 <= i < |tickers|
      ensures a[tickers[i]][..u + 1] == b[tickers[i]][..u + 1]
    {
      assert a[tickers[i]][..u + 1] == a[tickers[i]][..t + 1][..u + 1];
      assert b[tickers[i]][..u + 1] == b[tickers[i]][..t + 1][..u + 1];
    }
  }

  lemma {:induction false} SameSignals(cfg: Config, a: Panel, b: Panel, counter: int, bar: nat, n: nat, h: History)
    requires Causal(cfg.decide, cfg.tickers) && AgreeUpTo(a, b, cfg.tickers, bar) && n <= |cfg.tickers|
    ensures AllSignals(cfg, a, counter, bar, n, h) == AllSignals(cfg, b, counter, bar, n, h)
  {
    hide AgreeUpTo;
    if n > 0 {
      SameSignals(cfg, a, b, counter, bar, n - 1, h);
    }
  }

  lemma SamePrices(cfg: Config, a: Panel, b: Panel, bar: nat)
    requires AgreeUpTo(a, b, cfg.tickers, bar)
    ensures PricesAt(cfg, a, bar) == PricesAt(cfg, b, bar)
  {
    forall t | t in cfg.tickers
      ensures a[t][bar] == b[t][bar]
    {
      assert a[t][bar] == a[t][..bar + 1][bar] && b[t][bar] == b[t][..bar + 1][bar];
    }
  }

  /** Two panels that agree on bars 0..t give the same cash, positions, cost bases, fills, pending
      orders and equity curve through bar t, under any causal strategy. */
  lemma {:induction false} NoLookAhead(cfg: Config, a: Panel, n: nat, b: Panel, m: nat, t: nat, bars: nat)
    requires Causal(cfg.decide, cfg.tickers)
    requires Aligned(cfg, a, n) && Aligned(cfg, b, m) && t < n && t < m && bars <= t + 1
    requires AgreeUpTo(a, b, cfg.tickers, t)
    ensures RunTo(cfg, a, n, bars) == RunTo(cfg, b, m, bars)
    decreases bars
  {
    hide Causal, AgreeUpTo, AfterBorrow, AfterMark, AfterOrders, AllSignals, AllStaged, PricesAt, Extended;
    if bars > 0 {
      NoLookAhead(cfg, a, n, b, m, t, bars - 1);
      AgreeEarlier(a, b, cfg.tickers, t, bars - 1);
      SamePrices(cfg, a, b, bars - 1);
      var s := RunTo(cfg, a, n, bars - 1);
      SameSignals(cfg, a, b, s.counter, bars - 1, |cfg.tickers|, Extended(cfg, s.history, PricesAt(cfg, a, bars - 1)));
    }
  }

  // ----- The moving-average strategy, which precomputes its series from the whole array

  function RollingMean(close: seq<real>, window: nat, t: nat): real
    requires 0 < window <= t + 1 <= |close|
  {
    Sum(close[t + 1 - window..t + 1]) / (window as real)
  }

  /** `ma_crossover_series` */
  function CrossoverSeries(close: seq<real>, fast: nat, slow: nat): (r: seq<int>)
    requires fast > 0 && slow > 0
    ensures |r| == |close|
  {
    var first := if fast > slow then fast else slow;
    seq(|close|, t requires 0 <= t < |close| =>
      if t < first then 0
      else
        var prevFast, prevSlow := RollingMean(close, fast, t - 1), RollingMean(close, slow, t - 1);
        var curFast, curSlow := RollingMean(close, fast, t), RollingMean(close, slow, t);
        if prevFast <= prevSlow && curFast > curSlow then 1
        else if prevFast >= prevSlow && curFast < curSlow then -1
        else 0)
  }

  /** `MACrossoverStrategy.on_market`, prepared with the panel. */
  function CrossoverAt(fast: nat, slow: nat, panel: Panel, bar: nat, ticker: Ticker, h: History): seq<Signal>
    requires fast > 0 && slow > 0
  {
    var size := (if fast > slow then fast else slow) + 1;
    var closes := Closes(h, ticker);
    var tail := if |closes| > size then closes[|closes| - size..] else closes;
    var signal := if ticker in panel && bar < |panel[ticker]| then CrossoverSeries(panel[ticker], fast, slow)[bar]
                  else if tail != [] then CrossoverSeries(tail, fast, slow)[|tail| - 1]
                  else 0;
    if signal > 0 then [Signal(ticker, 1.0, 1)]
    else if signal < 0 then [Signal(ticker, -1.0, -1)]
    else []
  }

  function Crossover(fast: nat, slow: nat): Decide
    requires fast > 0 && slow > 0
  {
    (panel: Panel, counter: int, bar: nat, ticker: Ticker, h: History) => (CrossoverAt(fast, slow, panel, bar, ticker, h), counter)
  }

  /** Element t of the series depends only on the closes up to t. */
  lemma SeriesCausal(a: seq<real>, b: seq<real>, fast: nat, slow: nat, t: nat)
    requires fast > 0 && slow > 0 && t < |a| && t < |b| && a[..t + 1] == b[..t + 1]
    ensures CrossoverSeries(a, fast, slow)[t] == CrossoverSeries(b, fast, slow)[t]
  {
    hide RollingMean;
    var first := if fast > slow then fast else slow;
    if t >= first {
      MeansAgree(a, b, t, fast);
      MeansAgree(a, b, t, slow);
    }
  }

  lemma MeansAgree(a: seq<real>, b: seq<real>, t: nat, window: nat)
    requires 0 < window <= t < |a| && t < |b| && a[..t + 1] == b[..t + 1]
    ensures RollingMean(a, window, t) == RollingMean(b, window, t)
    ensures RollingMean(a, window, t - 1) == RollingMean(b, window, t - 1)
  {
    hide Sum;
    SlicesAgree(a, b, t, window);
  }

  lemma SlicesAgree(a: seq<real>, b: seq<real>, t: nat, window: nat)
    requires 0 < window <= t < |a| && t < |b| && a[..t + 1] == b[..t + 1]
    ensures a[t + 1 - window..t + 1] == b[t + 1 - window..t + 1]
    ensures a[t - window..t] == b[t - window..t]
  {
    assert forall i :: 0 <= i <= t ==> a[i] == a[..t + 1][i] && b[i] == b[..t + 1][i];
  }

  lemma CrossoverCausal(fast: nat, slow: nat, tickers: seq<Ticker>)
    requires fast > 0 && slow > 0
    ensures Causal(Crossover(fast, slow), tickers)
  {
    hide CrossoverSeries;
    forall a, b, t: nat, c, ticker, h | AgreeUpTo(a, b, tickers, t) && ticker in tickers
      ensures Crossover(fast, slow)(a, c, t, ticker, h) == Crossover(fast, slow)(b, c, t, ticker, h)
    {
      SeriesCausal(a[ticker], b[ticker], fast, slow, t);
    }
  }

  /** A strategy that looks only at the closes so far, as the other two do. */
  ghost predicate HistoryOnly(decide: Decide) {
    forall a, b, t: nat, c, ticker, h :: decide(a, c, t, ticker, h) == decide(b, c, t, ticker, h)
  }

  lemma HistoryOnlyCausal(decide: Decide, tickers: seq<Ticker>)
    requires HistoryOnly(decide)
    ensures Causal(decide, tickers)
  {
  }

  // ----- Returns

  function Compound(returnRates: seq<real>): real {
    if returnRates == [] then 1.0
    else Product(Compound(returnRates[..|returnRates| - 1]), 1.0 + returnRates[|returnRates| - 1])
  }

  /** Each return belongs to the price it is divided by: compounded, they lead from the first price to
      the last. */
  lemma {:induction false} ReturnsCompound(h: seq<real>)
    requires h != [] && forall i :: 0 <= i < |h| ==> h[i] >= 0.000000001
    ensures Product(Compound(SimpleReturns(h)), h[0]) == h[|h| - 1]
  {
    hide SimpleReturns, Product;
    if |h| == 1 {
      OneReturn(h);
    } else {
      var n := |h| - 1;
      LastReturn(h);
      ReturnsCompound(h[..n]);
      var rates, last := SimpleReturns(h[..n]), (h[n] - h[n - 1]) / h[n - 1];
      assert (rates + [last])[..|rates|] == rates;
      CompoundStep(Compound(rates), h[0], h[n - 1], h[n]);
    }
  }

  lemma OneReturn(h: seq<real>)
    requires |h| == 1
    ensures Product(Compound(SimpleReturns(h)), h[0]) == h[0]
  {
  }

  lemma LastReturn(h: seq<real>)
    requires |h| > 1 && h[|h| - 2] >= 0.000000001
    ensures SimpleReturns(h) == SimpleReturns(h[..|h| - 1]) + [(h[|h| - 1] - h[|h| - 2]) / h[|h| - 2]]
  {
  }

  lemma CompoundStep(c: real, first: real, before: real, now: real)
    requires before > 0.0 && Product(c, first) == before
    ensures Product(Product(c, 1.0 + (now - before) / before), first) == now
  {
    var rate := (now - before) / before;
    assert rate * before == now - before;
    assert c * (1.0 + rate) * first == c * first + rate * (c * first);
  }

  // ----- Fills and sizes

  /** The slippage a fill reports is what its price adds to the open, for buys and sells alike: it is
      paid once, with the price. */
  lemma SlippageIsInPrice(c: CostModel, o: Order, open: real, vol: real)
    requires o.qty != 0.0
    ensures var f := ComputeFill(c, o, open, vol);
            f.qty * f.price == f.qty * open + f.slippage
  {
    SignedProduct(o.qty, open, PriceMove(c, open, vol));
    hide PriceMove;
  }

  lemma SignedProduct(qty: real, open: real, add: real)
    ensures qty > 0.0 ==> qty * (open + add) == qty * open + qty * add
    ensures qty < 0.0 ==> qty * (open - add) == qty * open + -qty * add
  {
  }

  /** A commission is never below the minimum nor below its share of the notional, and is one of the
      two; a day's borrow is charged on sells only. */
  lemma CommissionAndBorrow(c: CostModel, o: Order, open: real, vol: real)
    ensures var f := ComputeFill(c, o, open, vol); var share := ShareOf(f.qty, f.price, c.commissionPct);
            && f.commission >= c.minCommission && f.commission >= share
            && (f.commission == c.minCommission || f.commission == share)
            && f.borrow == if f.qty < 0.0 then ShareOf(f.qty, f.price, c.borrowRate / 252.0) else 0.0
  {
    hide ShareOf, PriceMove;
  }

  /** Splitting an order in two of the same side never costs less, and costs at most one minimum
      commission more: everything but the commission adds up. */
  lemma SplittingNeverSaves(c: CostModel, o: Order, first: real, second: real, open: real, vol: real)
    requires c.minCommission >= 0.0 && SameSigns(first, second)
    ensures var whole := ComputeFill(c, o.(qty := first + second), open, vol);
            var one, two := ComputeFill(c, o.(qty := first), open, vol), ComputeFill(c, o.(qty := second), open, vol);
            && whole.slippage == one.slippage + two.slippage
            && CashOut(whole) <= CashOut(one) + CashOut(two)
            && (c.commissionPct >= 0.0 && whole.price >= 0.0 ==>
                  CashOut(one) + CashOut(two) <= CashOut(whole) + c.minCommission)
  {
    hide ShareOf, PriceMove, ComputeFill, CashOut, Product;
    var whole := ComputeFill(c, o.(qty := first + second), open, vol);
    var one, two := ComputeFill(c, o.(qty := first), open, vol), ComputeFill(c, o.(qty := second), open, vol);
    SamePrice(c, o, first, second, open, vol);
    CommissionAndBorrow(c, o.(qty := first + second), open, vol);
    CommissionAndBorrow(c, o.(qty := first), open, vol);
    CommissionAndBorrow(c, o.(qty := second), open, vol);
    PartsAdd(first, second, one.price, c.commissionPct);
    PartsAdd(first, second, one.price, c.borrowRate / 252.0);
    PartsMultiply(first, second, one.price);
    CashOutIs(whole);
    CashOutIs(one);
    CashOutIs(two);
    if c.commissionPct >= 0.0 && one.price >= 0.0 {
      ShareNotNegative(first, one.price, c.commissionPct);
      ShareNotNegative(second, one.price, c.commissionPct);
    }
  }

  lemma SamePrice(c: CostModel, o: Order, first: real, second: real, open: real, vol: real)
    requires SameSigns(first, second)
    ensures var whole := ComputeFill(c, o.(qty := first + second), open, vol);
            var one, two := ComputeFill(c, o.(qty := first), open, vol), ComputeFill(c, o.(qty := second), open, vol);
            && whole.qty == first + second && one.qty == first && two.qty == second
            && whole.price == one.price == two.price
            && whole.slippage == one.slippage + two.slippage
  {
    hide ShareOf, PriceMove;
    PartsMultiply(Abs(first), Abs(second), PriceMove(c, open, vol));
  }

  predicate SameSigns(a: real, b: real) {
    (a > 0.0 && b > 0.0) || (a < 0.0 && b < 0.0)
  }

  lemma PartsAdd(first: real, second: real, price: real, rate: real)
    requires SameSigns(first, second)
    ensures ShareOf(first + second, price, rate) == ShareOf(first, price, rate) + ShareOf(second, price, rate)
  {
  }

  lemma PartsMultiply(first: real, second: real, price: real)
    ensures Product(first + second, price) == Product(first, price) + Product(second, price)
  {
  }

  lemma CashOutIs(f: Fill)
    ensures CashOut(f) == Product(f.qty, f.price) + f.commission + f.borrow
  {
  }

  lemma ShareNotNegative(qty: real, price: real, rate: real)
    requires price >= 0.0 && rate >= 0.0
    ensures ShareOf(qty, price, rate) >= 0.0
  {
    NotNegative(Abs(qty), price);
    NotNegative(Abs(qty) * price, rate);
  }

  /** A volatility-targeted order is worth at most a quarter of the equity, and goes the signal's way. */
  lemma VolatilityTargetBounded(s: Sizer, signal: Signal, price: real, equity: real, h: seq<real>)
    requires s.VolatilityTarget? && s.targetVol >= 0.0 && equity >= 0.0 && price > 0.0
    requires signal.direction == 1 || signal.direction == -1
    ensures var q := Size(s, signal, price, equity, h);
            && 0.0 <= (signal.direction as real) * q
            && (signal.direction as real) * q * price <= equity / 4.0
  {
    hide Size;
    var target := VolatilitySize(s, signal, price, equity, h);
    WorthAtMost(signal.direction as real, target, equity / 4.0, price);
  }

  lemma VolatilitySize(s: Sizer, signal: Signal, price: real, equity: real, h: seq<real>) returns (target: real)
    requires s.VolatilityTarget? && s.targetVol >= 0.0 && equity >= 0.0 && price > 0.0
    ensures 0.0 <= target <= equity / 4.0
    ensures Size(s, signal, price, equity, h) == (signal.direction as real) * target / price
  {
    hide SimpleReturns, TargetValue;
    target := 0.0;
    var rets := if |h| > 2 then SimpleReturns(h) else [];
    if |rets| >= s.lookback {
      var vol := s.assetVol(rets[|rets| - s.lookback..]);
      if vol >= 0.000000001 {
        target := TargetValue(equity, s.targetVol, vol);
        TargetValueBounded(equity, s.targetVol, vol);
      }
    }
  }

  lemma TargetValueBounded(equity: real, targetVol: real, vol: real)
    requires equity >= 0.0 && targetVol >= 0.0 && vol > 0.0
    ensures 0.0 <= TargetValue(equity, targetVol, vol) <= equity / 4.0
  {
    hide Product;
    RatioNotNegative(targetVol, vol);
    ProductNotNegative(equity, Min(targetVol / vol, 5.0));
  }

  lemma RatioNotNegative(x: real, y: real)
    requires x >= 0.0 && y > 0.0
    ensures x / y >= 0.0
  {
  }

  lemma ProductNotNegative(x: real, y: real)
    requires x >= 0.0 && y >= 0.0
    ensures Product(x, y) >= 0.0
  {
  }

  lemma WorthAtMost(direction: real, target: real, most: real, price: real)
    requires direction == 1.0 || direction == -1.0
    requires 0.0 <= target <= most && price > 0.0
    ensures var q := direction * target / price; 0.0 <= direction * q && direction * q * price <= most
  {
  }

  // ----- Flat signals

  /** A signal of direction 0 is meant to liquidate, but both sizers give it size 0 and it is dropped
      before that branch: it never trades. */
  lemma FlatSignalNeverTrades(cfg: Config, b: Book, bar: nat, prices: Prices, h: History, s: Signal)
    requires s.direction == 0
    ensures Staged(cfg, b, bar, prices, h, s) == None
  {
  }

  // ----- Exposure and short sales

  lemma ProjectedIsGross(m: Positions, prices: Prices, ticker: Ticker, qty: real)
    requires DistinctKeys(m)
    ensures Projected(m, prices, ticker, qty) == Gross(Put(m, ticker, Held(m, ticker) + qty), prices)
  {
    hide AtMarket, Total, Put;
    var next := Held(m, ticker) + qty;
    TotalAfterPut(m, ticker, next, GrossOf(prices));
    TotalWithout(m, ticker, GrossIf(prices, ticker, qty), GrossOf(prices));
  }

  /** Replacing the filled position by a smaller one of the ticker keeps the exposure below. */
  lemma GrossSmaller(m: Positions, prices: Prices, ticker: Ticker, p: real, q: real)
    requires DistinctKeys(m) && PriceOf(prices, ticker) > 0.0 && Abs(p) <= Abs(q)
    ensures Gross(Put(m, ticker, p), prices) <= Gross(Put(m, ticker, q), prices)
  {
    hide AtMarket, Total, Put;
    TotalAfterPut(m, ticker, p, GrossOf(prices));
    TotalAfterPut(m, ticker, q, GrossOf(prices));
    SmallerAtMarket(p, q, PriceOf(prices, ticker));
  }

  lemma SmallerAtMarket(p: real, q: real, price: real)
    requires Abs(p) <= Abs(q) && price > 0.0
    ensures AtMarket(p, price) <= AtMarket(q, price)
  {
    Scaled(Abs(p), Abs(q), price);
  }

  lemma Ratio(gross: real, base: real, limit: real)
    requires base > 0.0 && gross / base <= limit
    ensures gross <= limit * base
  {
    assert gross == gross / base * base;
    Scaled(gross / base, limit, base);
  }

  lemma FilledQuantity(cfg: Config, b: Book, prices: Prices, h: History, o: Order)
    requires FillFor(cfg, b, prices, h, o).Some?
    ensures PriceOf(prices, o.ticker) > 0.0 && !OverLeverage(cfg, b, prices, o.ticker, o.qty)
    ensures var f := FillFor(cfg, b, prices, h, o).value; var held := Held(b.positions, o.ticker);
            f.ticker == o.ticker
            && f.qty == (if o.qty < 0.0 && !cfg.allowShort && held + o.qty < 0.0 then -held else o.qty)
  {
    hide ComputeFill, OverLeverage, DailyVol;
    FillQty(cfg.cost, o, PriceOf(prices, o.ticker), DailyVol(cfg, Closes(h, o.ticker)));
    FillQty(cfg.cost, o.(qty := -Held(b.positions, o.ticker)), PriceOf(prices, o.ticker), DailyVol(cfg, Closes(h, o.ticker)));
  }

  lemma FillQty(c: CostModel, o: Order, open: real, vol: real)
    ensures ComputeFill(c, o, open, vol).qty == o.qty && ComputeFill(c, o, open, vol).ticker == o.ticker
  {
  }

  /** After every executed fill, capped or not, gross exposure at current prices is within the
      leverage limit (plus 1e-9) times the last recorded equity, floored at 1e-9. */
  lemma ExposureBounded(cfg: Config, b: Book, prices: Prices, h: History, o: Order)
    requires DistinctKeys(b.positions) && FillFor(cfg, b, prices, h, o).Some?
    ensures Gross(AfterOrder(cfg, b, prices, h, o).positions, prices)
         <= (cfg.leverageLimit + 0.000000001) * EquityBase(b)
  {
    hide FillFor, Projected, Gross, Put;
    FilledQuantity(cfg, b, prices, h, o);
    var f := FillFor(cfg, b, prices, h, o).value;
    var held := Held(b.positions, o.ticker);
    AfterPositions(b, f);
    ProjectedIsGross(b.positions, prices, o.ticker, o.qty);
    GrossSmaller(b.positions, prices, o.ticker, held + f.qty, held + o.qty);
    Ratio(Projected(b.positions, prices, o.ticker, o.qty), EquityBase(b), cfg.leverageLimit + 0.000000001);
  }

  lemma AfterPositions(b: Book, f: Fill)
    ensures AfterFill(b, f).positions == Put(b.positions, f.ticker, Held(b.positions, f.ticker) + f.qty)
    ensures AfterFill(b, f).equity == b.equity
  {
  }

  predicate NoShorts(m: Positions) {
    forall i :: 0 <= i < |m| ==> m[i].value >= 0.0
  }

  lemma FillKeepsLong(cfg: Config, b: Book, prices: Prices, h: History, o: Order)
    requires !cfg.allowShort && DistinctKeys(b.positions) && NoShorts(b.positions)
    ensures DistinctKeys(AfterOrder(cfg, b, prices, h, o).positions)
    ensures NoShorts(AfterOrder(cfg, b, prices, h, o).positions)
  {
    hide FillFor, Put, Find, AfterFill;
    if FillFor(cfg, b, prices, h, o).Some? {
      var f := FillFor(cfg, b, prices, h, o).value;
      FilledQuantity(cfg, b, prices, h, o);
      AfterPositions(b, f);
      HeldLong(b.positions, o.ticker);
      var next := Held(b.positions, o.ticker) + f.qty;
      PutShape(b.positions, o.ticker, next);
      FindAfterPut(b.positions, o.ticker, next, o.ticker);
    }
  }

  lemma HeldLong(m: Positions, t: Ticker)
    requires DistinctKeys(m) && NoShorts(m)
    ensures Held(m, t) >= 0.0
  {
    if Has(m, t) {
      FindInEntry(m, t, Find(m, t).value);
    }
  }

  lemma {:induction false} OrdersKeepLong(cfg: Config, b: Book, prices: Prices, h: History, orders: seq<Order>)
    requires !cfg.allowShort && DistinctKeys(b.positions) && NoShorts(b.positions)
    ensures DistinctKeys(AfterOrders(cfg, b, prices, h, orders).positions)
    ensures NoShorts(AfterOrders(cfg, b, prices, h, orders).positions)
    decreases orders
  {
    hide AfterOrder, NoShorts;
    if orders != [] {
      FillKeepsLong(cfg, b, prices, h, orders[0]);
      OrdersKeepLong(cfg, AfterOrder(cfg, b, prices, h, orders[0]), prices, h, orders[1..]);
    }
  }

  /** With short sales disabled no position is negative after any number of bars. */
  lemma {:induction false} NeverShort(cfg: Config, panel: Panel, n: nat, bars: nat)
    requires !cfg.allowShort && Aligned(cfg, panel, n) && bars <= n
    ensures DistinctKeys(RunTo(cfg, panel, n, bars).book.positions)
    ensures NoShorts(RunTo(cfg, panel, n, bars).book.positions)
    decreases bars
  {
    hide NoShorts, AfterOrders, AllSignals, AllStaged, PricesAt;
    if bars > 0 {
      NeverShort(cfg, panel, n, bars - 1);
      var s, prices := RunTo(cfg, panel, n, bars - 1), PricesAt(cfg, panel, bars - 1);
      OrdersKeepLong(cfg, AfterBorrow(s.book, prices, cfg.cost.borrowRate), prices, s.history, s.pending);
    } else {
      NothingHeld();
    }
  }

  lemma NothingHeld()
    ensures NoShorts([])
  {
  }

  // ----- Conservation over a whole simulation

  lemma RunAppend(initial: real, events: seq<Event>, e: Event)
    ensures Run(Opening(initial), events + [e]) == After(Run(Opening(initial), events), e)
  {
    assert (events + [e])[..|events|] == events;
  }

  lemma {:induction false} OrdersAreEvents(cfg: Config, b: Book, prices: Prices, h: History, orders: seq<Order>,
          events: seq<Event>)
    returns (more: seq<Event>)
    requires b == Run(Opening(cfg.initial), events)
    ensures AfterOrders(cfg, b, prices, h, orders) == Run(Opening(cfg.initial), more)
    decreases orders
  {
    hide FillFor, Run;
    more := events;
    if orders != [] {
      var fill := FillFor(cfg, b, prices, h, orders[0]);
      if fill.Some? {
        RunAppend(cfg.initial, events, Filled(fill.value));
        more := events + [Filled(fill.value)];
      }
      more := OrdersAreEvents(cfg, AfterOrder(cfg, b, prices, h, orders[0]), prices, h, orders[1..], more);
    }
  }

  /** Every book the simulation reaches is reached by some sequence of portfolio events. */
  lemma {:induction false} SimulationIsRun(cfg: Config, panel: Panel, n: nat, bars: nat) returns (events: seq<Event>)
    requires Aligned(cfg, panel, n) && bars <= n
    ensures RunTo(cfg, panel, n, bars).book == Run(Opening(cfg.initial), events)
    decreases bars
  {
    hide AfterBorrow, AfterMark, AfterOrders, AllSignals, AllStaged, PricesAt, Extended, Run;
    events := [];
    if bars == 0 {
      NoEvents(Opening(cfg.initial));
    } else {
      events := SimulationIsRun(cfg, panel, n, bars - 1);
      var s, prices := RunTo(cfg, panel, n, bars - 1), PricesAt(cfg, panel, bars - 1);
      RunAppend(cfg.initial, events, Accrued(prices, cfg.cost.borrowRate));
      events := events + [Accrued(prices, cfg.cost.borrowRate)];
      if bars > 1 {
        events := OrdersAreEvents(cfg, AfterBorrow(s.book, prices, cfg.cost.borrowRate), prices, s.history, s.pending, events);
      }
      RunAppend(cfg.initial, events, Marked(prices));
      events := events + [Marked(prices)];
    }
  }

  lemma NoEvents(b: Book)
    ensures Run(b, []) == b
  {
  }

  /** At every bar: cash plus what the open positions cost is the initial capital plus the profit
      realised, less commission and borrow. */
  lemma SimulationConserves(cfg: Config, panel: Panel, n: nat, bars: nat) returns (events: seq<Event>)
    requires Aligned(cfg, panel, n) && bars <= n
    ensures var b := RunTo(cfg, panel, n, bars).book;
            && b == Run(Opening(cfg.initial), events)
            && b.cash + Basis(b) == cfg.initial + TotalRealised(Opening(cfg.initial), events) - b.commission - b.borrow
  {
    hide RunTo, Run, Basis, TotalRealised;
    events := SimulationIsRun(cfg, panel, n, bars);
    RunConserves(cfg.initial, events);
  }

  // ----- Exposure over a whole simulation

  lemma {:induction false} OrdersKeepKeys(cfg: Config, b: Book, prices: Prices, h: History, orders: seq<Order>)
    requires DistinctKeys(b.positions)
    ensures DistinctKeys(AfterOrders(cfg, b, prices, h, orders).positions)
    ensures EquityBase(AfterOrders(cfg, b, prices, h, orders)) == EquityBase(b)
    decreases orders
  {
    hide FillFor, AfterFill, Put;
    if orders != [] {
      var fill := FillFor(cfg, b, prices, h, orders[0]);
      if fill.Some? {
        AfterPositions(b, fill.value);
        FindAfterPut(b.positions, fill.value.ticker, Held(b.positions, fill.value.ticker) + fill.value.qty, fill.value.ticker);
      }
      OrdersKeepKeys(cfg, AfterOrder(cfg, b, prices, h, orders[0]), prices, h, orders[1..]);
    }
  }

  lemma ReachableKeys(cfg: Config, panel: Panel, n: nat, bars: nat)
    requires Aligned(cfg, panel, n) && bars <= n
    ensures DistinctKeys(RunTo(cfg, panel, n, bars).book.positions)
  {
    hide RunTo, Run, Basis, TotalRealised;
    var events := SimulationIsRun(cfg, panel, n, bars);
    RunConserves(cfg.initial, events);
  }

  /** In every simulation, after each order that fills, whatever filled before it at the same bar,
      gross exposure is within the leverage limit times the equity recorded at the bar before. */
  lemma ExposureThroughout(cfg: Config, panel: Panel, n: nat, bar: nat, i: nat)
    requires Aligned(cfg, panel, n) && 0 < bar < n && i < |RunTo(cfg, panel, n, bar).pending|
    ensures var s, prices := RunTo(cfg, panel, n, bar), PricesAt(cfg, panel, bar);
            var before := AfterOrders(cfg, AfterBorrow(s.book, prices, cfg.cost.borrowRate), prices, s.history, s.pending[..i]);
            FillFor(cfg, before, prices, s.history, s.pending[i]).Some? ==>
              Gross(AfterOrder(cfg, before, prices, s.history, s.pending[i]).positions, prices)
              <= (cfg.leverageLimit + 0.000000001) * EquityBase(s.book)
  {
    hide RunTo, FillFor, AfterOrders, AfterOrder, Gross, PricesAt;
    var s, prices := RunTo(cfg, panel, n, bar), PricesAt(cfg, panel, bar);
    var accrued := AfterBorrow(s.book, prices, cfg.cost.borrowRate);
    ReachableKeys(cfg, panel, n, bar);
    OrdersKeepKeys(cfg, accrued, prices, s.history, s.pending[..i]);
    var before := AfterOrders(cfg, accrued, prices, s.history, s.pending[..i]);
    if FillFor(cfg, before, prices, s.history, s.pending[i]).Some? {
      ExposureBounded(cfg, before, prices, s.history, s.pending[i]);
    }
  }
}

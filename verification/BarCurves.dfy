/**
 The curves of the bar-by-bar backtester against its trade log: what every point is made of, how many
 there are, what borrow is charged, and what is known of a ticker when an order is decided.
 */
module BarCurves {
  import opened Wrappers
  import opened OrderedMaps
  import opened ExecutionModel
  import opened BarBacktest
  import opened Reals
  import EventBacktest
  import EventOrders
  import Portfolios

  // ----- Positions at market, from the trades

  /** The close of `t` at `bar`, or nothing where there is none. */
  function CloseAt(panel: Panel, t: Ticker, bar: nat): real {
    if t in panel && bar < |panel[t].close| then panel[t].close[bar] else 0.0
  }

  /** What a trade has brought by `bar`: the shares gained or lost since, less its commission. */
  function GainBy(panel: Panel, bar: nat): Trade -> real {
    (t: Trade) =>
      (if t.side == Buy then t.qty * (CloseAt(panel, t.ticker, bar) - t.price)
       else t.qty * (t.price - CloseAt(panel, t.ticker, bar))) - t.commission
  }

  function WorthBy(panel: Panel, bar: nat): Trade -> real {
    (t: Trade) => Product(Signed(t.side, t.qty), CloseAt(panel, t.ticker, bar))
  }

  function MarkedAt(panel: Panel, bar: nat): (Ticker, real) -> real {
    (t, q) => Product(q, CloseAt(panel, t, bar))
  }

  lemma MarkedIs(panel: Panel, m: Positions, bar: nat)
    ensures Portfolios.Total(m, ValueAt(panel, bar)) == Portfolios.Total(m, MarkedAt(panel, bar))
  {
    Portfolios.TotalSame(m, ValueAt(panel, bar), MarkedAt(panel, bar));
  }

  /** The positions are worth what their trades' shares are. */
  ghost predicate WorthKept(panel: Panel, bar: nat, b: Book) {
    && DistinctKeys(b.positions)
    && Portfolios.Total(b.positions, MarkedAt(panel, bar)) == SumOf(b.log, WorthBy(panel, bar))
  }

  ghost function IsWorthKept(panel: Panel, bar: nat): Book -> bool {
    (b: Book) => WorthKept(panel, bar, b)
  }

  lemma SettledWorth(panel: Panel, bar: nat, b: Book, t: Trade)
    requires WorthKept(panel, bar, b) && t.positionAfter == Held(b.positions, t.ticker) + Signed(t.side, t.qty)
    ensures WorthKept(panel, bar, Settled(b, t))
  {
    hide SumOf, Put, Find, CashFlow, Portfolios.Total, Signed, Product, CloseAt;
    var held, c := Held(b.positions, t.ticker), CloseAt(panel, t.ticker, bar);
    FindAfterPut(b.positions, t.ticker, t.positionAfter, t.ticker);
    Portfolios.TotalAfterPut(b.positions, t.ticker, t.positionAfter, MarkedAt(panel, bar));
    SumAppend(b.log, t, WorthBy(panel, bar));
    AddsUp(held, Signed(t.side, t.qty), c);
    NotHeld(b.positions, t.ticker, c);
  }

  lemma AddsUp(a: real, b: real, c: real)
    ensures Product(a + b, c) == Product(a, c) + Product(b, c)
  {
  }

  lemma NotHeld(m: Positions, t: Ticker, c: real)
    ensures !Has(m, t) ==> Product(Held(m, t), c) == 0.0
  {
  }

  lemma NothingWorth(panel: Panel, bar: nat, initial: real)
    ensures WorthKept(panel, bar, Opening(initial))
  {
  }

  lemma RunWorth(cfg: Config, panel: Panel, tickers: seq<Ticker>, n: nat, first: nat, bar: nat, at: nat)
    requires 1 <= cfg.execution.delayBars <= first
    ensures WorthKept(panel, at, RunTo(cfg, panel, tickers, n, first, bar))
  {
    hide Placed, RunTo, Accrued, Marked, WorthKept;
    var inv := IsWorthKept(panel, at);
    forall b, q, side, desired | inv(b)
      ensures inv(Placed(cfg, b, q, side, desired))
    {
      PlacedWorth(cfg, panel, at, b, q, side, desired);
    }
    forall b, day: nat | inv(b)
      ensures inv(Accrued(cfg, panel, b, day)) && inv(Marked(panel, b, day))
    {
      EndWorth(cfg, panel, at, b, day);
    }
    NothingWorth(panel, at, cfg.initial);
    RunKeeps(cfg, panel, inv, tickers, n, first, bar);
  }

  lemma PlacedWorth(cfg: Config, panel: Panel, at: nat, b: Book, q: Quote, side: Side, desired: real)
    requires WorthKept(panel, at, b)
    ensures WorthKept(panel, at, Placed(cfg, b, q, side, desired))
  {
    hide ExecuteOrder, WorthKept, Settled;
    var fill := ExecuteOrder(cfg.execution, OrderOf(b, q, side, desired));
    if fill.Filled? {
      SettledWorth(panel, at, b, TradeOf(b, q, side, desired, fill));
    }
  }

  lemma EndWorth(cfg: Config, panel: Panel, at: nat, b: Book, day: nat)
    requires WorthKept(panel, at, b)
    ensures WorthKept(panel, at, Accrued(cfg, panel, b, day)) && WorthKept(panel, at, Marked(panel, b, day))
  {
    hide Portfolios.Total, Equity;
  }

  lemma {:induction false} GainsAre(panel: Panel, log: seq<Trade>, bar: nat)
    ensures SumOf(log, GainBy(panel, bar)) == SumOf(log, CashFlow) + SumOf(log, WorthBy(panel, bar))
  {
    hide CloseAt;
    if log != [] {
      GainsAre(panel, log[..|log| - 1], bar);
      OneGain(log[|log| - 1], CloseAt(panel, log[|log| - 1].ticker, bar));
    }
  }

  lemma OneGain(t: Trade, close: real)
    ensures (if t.side == Buy then t.qty * (close - t.price) else t.qty * (t.price - close)) - t.commission
         == CashFlow(t) + Product(Signed(t.side, t.qty), close)
  {
  }

  /** The equity at any bar's closes: the initial capital, and what every trade has gained by then, less
      commissions and borrow. */
  lemma EquityIsGains(cfg: Config, panel: Panel, tickers: seq<Ticker>, n: nat, first: nat, bar: nat, at: nat)
    requires 1 <= cfg.execution.delayBars <= first
    ensures var b := RunTo(cfg, panel, tickers, n, first, bar);
            Equity(panel, b, at) == cfg.initial + SumOf(b.log, GainBy(panel, at)) - b.borrow
  {
    hide RunTo, SumOf, Portfolios.Total;
    var b := RunTo(cfg, panel, tickers, n, first, bar);
    RunWorth(cfg, panel, tickers, n, first, bar, at);
    RunBalances(cfg, panel, tickers, n, first, bar);
    MarkedIs(panel, b.positions, at);
    GainsAre(panel, b.log, at);
  }

  // ----- The points of the curves

  /** Every bar adds one point to each curve. The net one is the initial capital and what every trade so far
      has gained at the bar's closes, less commissions and borrow; the gross one has all costs added back. */
  lemma CurvesGrow(cfg: Config, panel: Panel, tickers: seq<Ticker>, n: nat, first: nat, bar: nat)
    requires 1 <= cfg.execution.delayBars <= first <= bar
    ensures var was, b := RunTo(cfg, panel, tickers, n, first, bar), RunTo(cfg, panel, tickers, n, first, bar + 1);
            var net := cfg.initial + SumOf(b.log, GainBy(panel, bar)) - b.borrow;
            && b.net == was.net + [net]
            && b.gross == was.gross
                 + [net + SumOf(b.log, Commissions()) + SumOf(b.log, SlippageCosts()) + SumOf(b.log, SpreadCosts()) + b.borrow]
  {
    hide RunTo, SumOf, Equity, TradedOn, Accrued, NextReturns;
    var was, b := RunTo(cfg, panel, tickers, n, first, bar), RunTo(cfg, panel, tickers, n, first, bar + 1);
    EquityIsGains(cfg, panel, tickers, n, first, bar + 1, bar);
    RunBalances(cfg, panel, tickers, n, first, bar + 1);
    LastMark(cfg, panel, tickers, n, first, bar);
  }

  lemma LastMark(cfg: Config, panel: Panel, tickers: seq<Ticker>, n: nat, first: nat, bar: nat)
    requires 1 <= cfg.execution.delayBars <= first <= bar
    ensures var was, b := RunTo(cfg, panel, tickers, n, first, bar), RunTo(cfg, panel, tickers, n, first, bar + 1);
            var value := Equity(panel, b, bar);
            && b.net == was.net + [value]
            && b.gross == was.gross + [value + b.commission + b.slippage + b.spread + b.borrow]
  {
    hide TradedOn, Portfolios.Total, NextReturns;
    var was := RunTo(cfg, panel, tickers, n, first, bar);
    var traded := TradedOn(cfg, panel, tickers, n, was, bar, bar - cfg.execution.delayBars);
    assert traded.net == was.net && traded.gross == was.gross by {
      TradesKeepCurves(cfg, panel, tickers, n, was, bar, bar - cfg.execution.delayBars);
    }
  }

  lemma TradesKeepCurves(cfg: Config, panel: Panel, tickers: seq<Ticker>, n: nat, b: Book, bar: nat, decision: nat)
    requires decision <= bar
    ensures var t := TradedOn(cfg, panel, tickers, n, b, bar, decision);
            t.net == b.net && t.gross == b.gross && t.netReturns == b.netReturns && t.grossReturns == b.grossReturns
            && t.borrow == b.borrow
  {
    hide Chosen, ActedAll, Equity;
    ActedKeepCurves(cfg, panel, n, b, bar, decision, Equity(panel, b, decision), |tickers|,
                    Chosen(cfg, panel, n, b, bar, decision, tickers, true) + Chosen(cfg, panel, n, b, bar, decision, tickers, false));
  }

  lemma {:induction false} ActedKeepCurves(cfg: Config, panel: Panel, n: nat, b: Book, bar: nat, decision: nat, equity: real,
          assets: nat, queue: seq<Ticker>)
    requires decision <= bar && forall i :: 0 <= i < |queue| ==> HasBar(panel, queue[i], bar)
    ensures var t := ActedAll(cfg, panel, n, b, bar, decision, equity, assets, queue);
            t.net == b.net && t.gross == b.gross && t.netReturns == b.netReturns && t.grossReturns == b.grossReturns
            && t.borrow == b.borrow
  {
    hide ExecuteOrder, QuoteFor, Put, Held, CashFlow;
    if queue != [] {
      assert HasBar(panel, queue[|queue| - 1], bar);
      ActedKeepCurves(cfg, panel, n, b, bar, decision, equity, assets, queue[..|queue| - 1]);
    }
  }

  /** The run marks every bar from the later of the start and the delay up to the end. */
  lemma {:induction false} BarsMarked(cfg: Config, panel: Panel, tickers: seq<Ticker>, n: nat, first: nat, bar: nat)
    requires 1 <= cfg.execution.delayBars <= first
    ensures |RunTo(cfg, panel, tickers, n, first, bar).net| == if bar > first then bar - first else 0
  {
    hide TradedOn, Portfolios.Total, Equity, NextReturns, Accrued;
    if bar > first {
      BarsMarked(cfg, panel, tickers, n, first, bar - 1);
      LastMark(cfg, panel, tickers, n, first, bar - 1);
    }
  }

  lemma BacktestMarks(cfg: Config, assets: seq<Ticker>, panel: Panel, startBar: int, n: nat)
    requires cfg.execution.delayBars >= 1
    ensures var begin: int := if startBar >= cfg.execution.delayBars then startBar else cfg.execution.delayBars;
            |Backtest(cfg, assets, panel, startBar, n).net| == if n > begin then n - begin else 0
  {
    hide RunTo, Traded;
    BarsMarked(cfg, panel, Traded(assets, panel), n, FirstBar(cfg, startBar), n);
  }

  // ----- Borrow

  /** The annual rate on what a short position is worth at a bar that has its price. */
  function AnnualBorrow(cfg: Config, panel: Panel, bar: nat): (Ticker, real) -> real {
    (t, q) =>
      if q >= 0.0 || t !in panel || bar >= |panel[t].close| then 0.0
      else
        -q * panel[t].close[bar]
        * if t in cfg.execution.borrow.hardToBorrow then cfg.execution.borrow.hardRate else cfg.execution.borrow.generalRate
  }

  lemma {:induction false} TotalTimes(m: Positions, f: (Ticker, real) -> real, g: (Ticker, real) -> real)
    requires forall t, q :: 252.0 * f(t, q) == g(t, q)
    ensures 252.0 * Portfolios.Total(m, f) == Portfolios.Total(m, g)
  {
    if m != [] {
      TotalTimes(m[1..], f, g);
    }
  }

  /** A bar's borrow leaves cash, on the positions after the bar's trades: 252 of it make the annual rate on
      every short position that has a price, the higher one for those hard to borrow. */
  lemma YearOfBorrow(cfg: Config, panel: Panel, b: Book, bar: nat)
    ensures var a := Accrued(cfg, panel, b, bar);
            && 252.0 * (a.borrow - b.borrow) == Portfolios.Total(b.positions, AnnualBorrow(cfg, panel, bar))
            && b.capital - a.capital == a.borrow - b.borrow && a.positions == b.positions && a.log == b.log
  {
    hide Portfolios.Total;
    forall t, q
      ensures 252.0 * BorrowAt(cfg, panel, bar)(t, q) == AnnualBorrow(cfg, panel, bar)(t, q)
    {
      DayOfBorrow(cfg, panel, bar, t, q);
    }
    TotalTimes(b.positions, BorrowAt(cfg, panel, bar), AnnualBorrow(cfg, panel, bar));
  }

  lemma DayOfBorrow(cfg: Config, panel: Panel, bar: nat, t: Ticker, q: real)
    ensures 252.0 * BorrowAt(cfg, panel, bar)(t, q) == AnnualBorrow(cfg, panel, bar)(t, q)
  {
  }

  /** Over a run: what a bar adds to the borrow owed is one day's borrow on the positions it ends with. */
  lemma BarBorrows(cfg: Config, panel: Panel, tickers: seq<Ticker>, n: nat, first: nat, bar: nat)
    requires 1 <= cfg.execution.delayBars <= first <= bar
    ensures var was, b := RunTo(cfg, panel, tickers, n, first, bar), RunTo(cfg, panel, tickers, n, first, bar + 1);
            252.0 * (b.borrow - was.borrow) == Portfolios.Total(b.positions, AnnualBorrow(cfg, panel, bar))
  {
    hide TradedOn, Portfolios.Total, Equity, NextReturns;
    var was := RunTo(cfg, panel, tickers, n, first, bar);
    var traded := TradedOn(cfg, panel, tickers, n, was, bar, bar - cfg.execution.delayBars);
    TradesKeepCurves(cfg, panel, tickers, n, was, bar, bar - cfg.execution.delayBars);
    YearOfBorrow(cfg, panel, traded, bar);
    MarkKeeps(panel, Accrued(cfg, panel, traded, bar), bar);
  }

  lemma MarkKeeps(panel: Panel, b: Book, bar: nat)
    ensures Marked(panel, b, bar).positions == b.positions && Marked(panel, b, bar).borrow == b.borrow
  {
    hide Equity, NextReturns;
  }

  // ----- What is known at the decision bar

  /** The last 22 bars up to `bar`, or as many as there are. */
  function Recent<T>(x: seq<T>, bar: nat): seq<T>
    requires bar < |x|
  {
    if bar < 21 then x[..bar + 1] else x[bar - 21..bar + 1]
  }

  /** From bar 2 on the daily volatility is the deviation of the returns within the last 22 closes, and the
      average volume the mean of the last 22 volumes; before that, and without volumes, both are fixed. */
  lemma LiquidityKnown(cfg: Config, s: Series, bar: nat)
    requires bar < |s.close| && (s.volume.Some? ==> bar < |s.volume.value|)
    ensures var (vol, volume) := Liquidity(cfg, s, bar);
            && (bar <= 1 ==> vol == 0.02 && volume == 1000000.0)
            && (s.volume.None? ==> volume == 1000000.0)
            && (bar > 1 ==>
                  var w := Recent(s.close, bar);
                  && |w| >= 2 && vol == cfg.deviation(EventOrders.LastReturns(w, |w| - 1)))
            && (bar > 1 && s.volume.Some? ==>
                  volume * (|Recent(s.volume.value, bar)| as real) == Sum(Recent(s.volume.value, bar)))
  {
    hide EventBacktest.SimpleReturns, EventOrders.LastReturns, Sum;
    if bar > 1 {
      var w := Recent(s.close, bar);
      assert s.close[WindowStart(bar)..bar + 1] == w;
      EventOrders.LastReturnsAre(w, |w| - 1);
      assert EventBacktest.SimpleReturns(w)[0..] == EventBacktest.SimpleReturns(w);
      if s.volume.Some? {
        assert Slice(s.volume.value, WindowStart(bar), bar + 1) == Recent(s.volume.value, bar);
        MeanTimes(Recent(s.volume.value, bar));
      }
    }
  }

  lemma MeanTimes(x: seq<real>)
    requires x != []
    ensures Mean(x) * (|x| as real) == Sum(x)
  {
    hide Sum;
    var n := |x| as real;
    assert Sum(x) / n * n == Sum(x);
  }
}

/**
 What the event simulator's books say: equity against profit, daily returns against equity, and
 borrow against the rate.
 */
module EventBooks {
  import opened OrderedMaps
  import opened Portfolios
  import opened EventBacktest
  import opened Reals

  // ----- Equity

  /** What the open positions have gained since they were bought or sold short. */
  function Unrealised(b: Book, prices: Prices): real {
    Total(b.positions, GainAt(prices, b.avgCosts))
  }

  function GainAt(prices: Prices, costs: map<Ticker, real>): (Ticker, real) -> real {
    (t, q) => if t in costs then q * (PriceOf(prices, t) - costs[t]) else q * PriceOf(prices, t)
  }

  lemma {:induction false} TotalSplits(m: Positions, f: (Ticker, real) -> real, g: (Ticker, real) -> real,
          h: (Ticker, real) -> real)
    requires forall t, q :: f(t, q) == g(t, q) + h(t, q)
    ensures Total(m, f) == Total(m, g) + Total(m, h)
  {
    if m != [] {
      TotalSplits(m[1..], f, g, h);
    }
  }

  lemma ValueSplits(b: Book, prices: Prices)
    ensures Total(b.positions, ValueAt(prices)) == Basis(b) + Unrealised(b, prices)
  {
    forall t, q
      ensures ValueAt(prices)(t, q) == CostOf(b.avgCosts)(t, q) + GainAt(prices, b.avgCosts)(t, q)
    {
      if t in b.avgCosts {
        Distributes(q, PriceOf(prices, t), b.avgCosts[t]);
      }
    }
    TotalSplits(b.positions, ValueAt(prices), CostOf(b.avgCosts), GainAt(prices, b.avgCosts));
  }

  lemma Distributes(q: real, price: real, cost: real)
    ensures q * price == Product(q, cost) + q * (price - cost)
  {
  }

  /** Every recorded equity is the initial capital, plus the profit realised, plus what the open positions
      have gained at the marked prices, less commission and borrow. */
  lemma EquityIsProfit(initial: real, events: seq<Event>, prices: Prices)
    ensures var b := Run(Opening(initial), events); var marked := AfterMark(b, prices);
            && |marked.equity| == |b.equity| + 1 && marked.equity[..|b.equity|] == b.equity
            && marked.equity[|b.equity|]
               == initial + TotalRealised(Opening(initial), events) + Unrealised(b, prices) - b.commission - b.borrow
  {
    hide Run, Basis, TotalRealised, Unrealised, Total;
    RunConserves(initial, events);
    ValueSplits(Run(Opening(initial), events), prices);
  }

  // ----- Daily returns

  predicate Marks(equity: seq<real>) {
    forall i :: 0 <= i < |equity| ==> equity[i] > 0.000000001
  }

  /** Each daily return belongs to the equity it is divided by: compounded, they lead from the first
      equity to the last. */
  predicate ReturnsExplain(b: Book) {
    && |b.equity| == |b.dailyReturns| > 0
    && (Marks(b.equity) ==> Product(Compound(b.dailyReturns), b.equity[0]) == b.equity[|b.equity| - 1])
  }

  lemma OpeningReturns(initial: real)
    ensures ReturnsExplain(Opening(initial))
  {
    assert [0.0][..0] == [];
    assert Compound([0.0]) == Product(Compound([]), 1.0 + 0.0);
  }

  lemma MarkReturns(b: Book, prices: Prices)
    requires ReturnsExplain(b)
    ensures ReturnsExplain(AfterMark(b, prices))
  {
    hide Total, Product;
    var m, n := AfterMark(b, prices), |b.equity|;
    if Marks(m.equity) {
      assert forall i :: 0 <= i < n ==> b.equity[i] == m.equity[i];
      var last, now := b.equity[n - 1], m.equity[n];
      assert m.dailyReturns == b.dailyReturns + [(now - last) / last];
      assert m.dailyReturns[..n] == b.dailyReturns;
      CompoundStep(Compound(b.dailyReturns), b.equity[0], last, now);
    }
  }

  lemma {:induction false} RunReturns(initial: real, events: seq<Event>)
    ensures ReturnsExplain(Run(Opening(initial), events))
  {
    hide ReturnsExplain;
    if events == [] {
      OpeningReturns(initial);
    } else {
      var b, e := Run(Opening(initial), events[..|events| - 1]), events[|events| - 1];
      RunReturns(initial, events[..|events| - 1]);
      match e
      case Filled(f) => OtherReturns(b, AfterFill(b, f));
      case Accrued(prices, rate) => OtherReturns(b, AfterBorrow(b, prices, rate));
      case Marked(prices) => MarkReturns(b, prices);
    }
  }

  lemma OtherReturns(b: Book, c: Book)
    requires ReturnsExplain(b) && c.equity == b.equity && c.dailyReturns == b.dailyReturns
    ensures ReturnsExplain(c)
  {
  }

  /** At every bar of every simulation there is one equity and one return for each bar before it, besides
      the first of each, and the returns explain the curve. */
  lemma {:induction false} SimulationMarks(cfg: Config, panel: Panel, n: nat, bars: nat)
    requires Aligned(cfg, panel, n) && bars <= n
    ensures var b := RunTo(cfg, panel, n, bars).book;
            |b.equity| == bars + 1 && b.equity[0] == cfg.initial && ReturnsExplain(b)
    decreases bars
  {
    hide AfterOrders, AllSignals, AllStaged, PricesAt, Extended, Total, ReturnsExplain;
    if bars == 0 {
      OpeningReturns(cfg.initial);
    } else {
      SimulationMarks(cfg, panel, n, bars - 1);
      var s, prices := RunTo(cfg, panel, n, bars - 1), PricesAt(cfg, panel, bars - 1);
      var accrued := AfterBorrow(s.book, prices, cfg.cost.borrowRate);
      OrdersKeepCurves(cfg, accrued, prices, s.history, s.pending);
      var filled := if bars > 1 then AfterOrders(cfg, accrued, prices, s.history, s.pending) else accrued;
      OtherReturns(s.book, filled);
      MarkReturns(filled, prices);
    }
  }

  lemma {:induction false} OrdersKeepCurves(cfg: Config, b: Book, prices: Prices, h: History, orders: seq<Order>)
    ensures AfterOrders(cfg, b, prices, h, orders).equity == b.equity
    ensures AfterOrders(cfg, b, prices, h, orders).dailyReturns == b.dailyReturns
    decreases orders
  {
    hide FillFor;
    if orders != [] {
      OrdersKeepCurves(cfg, AfterOrder(cfg, b, prices, h, orders[0]), prices, h, orders[1..]);
    }
  }

  // ----- Borrow

  /** What the short positions are worth. */
  function ShortAt(prices: Prices): (Ticker, real) -> real {
    (t, q) => if q < 0.0 then -q * PriceOf(prices, t) else 0.0
  }

  lemma {:induction false} TotalScaled(m: Positions, f: (Ticker, real) -> real, g: (Ticker, real) -> real, k: real)
    requires forall t, q :: 252.0 * f(t, q) == Product(k, g(t, q))
    ensures 252.0 * Total(m, f) == Product(k, Total(m, g))
  {
    hide Product;
    if m == [] {
      assert Product(k, 0.0) == 0.0 by { ZeroTimes(k); }
    } else {
      TotalScaled(m[1..], f, g, k);
      Adds(k, g(m[0].key, m[0].value), Total(m[1..], g));
    }
  }

  lemma ZeroTimes(k: real)
    ensures Product(k, 0.0) == 0.0
  {
  }

  lemma Adds(k: real, a: real, b: real)
    ensures Product(k, a + b) == Product(k, a) + Product(k, b)
  {
  }

  /** A day's borrow leaves cash, and 252 days of it at the same prices make the annual rate on the value
      of the short positions. */
  lemma YearOfBorrow(b: Book, prices: Prices, rate: real)
    ensures var a := AfterBorrow(b, prices, rate);
            && 252.0 * (a.borrow - b.borrow) == Product(rate, Total(b.positions, ShortAt(prices)))
            && b.cash - a.cash == a.borrow - b.borrow
            && a.positions == b.positions
  {
    hide Total, Product;
    forall t, q
      ensures 252.0 * BorrowOn(prices, rate)(t, q) == Product(rate, ShortAt(prices)(t, q))
    {
      DayOfBorrow(prices, rate, t, q);
    }
    TotalScaled(b.positions, BorrowOn(prices, rate), ShortAt(prices), rate);
  }

  lemma DayOfBorrow(prices: Prices, rate: real, t: Ticker, q: real)
    ensures 252.0 * BorrowOn(prices, rate)(t, q) == Product(rate, ShortAt(prices)(t, q))
  {
    if q < 0.0 {
      var x := Abs(q) * PriceOf(prices, t) * rate;
      assert 252.0 * (x / 252.0) == x;
      assert x == rate * (-q * PriceOf(prices, t));
    }
  }

  // ----- What strategies are shown

  /** `t` is listed at `i` and nowhere else. */
  predicate ListedOnce(tickers: seq<Ticker>, t: Ticker, i: nat) {
    i < |tickers| && tickers[i] == t && forall j :: 0 <= j < |tickers| && j != i ==> tickers[j] != t
  }

  lemma {:induction false} ExtendedOnce(cfg: Config, h: History, prices: Prices, t: Ticker, i: nat, k: nat)
    requires ListedOnce(cfg.tickers, t, i) && k <= |cfg.tickers|
    ensures Closes(ExtendedBy(cfg, h, prices, k), t) == Closes(h, t) + if i < k then [PriceOf(prices, t)] else []
  {
    if k > 0 {
      ExtendedOnce(cfg, h, prices, t, i, k - 1);
    }
  }

  /** Before every bar the history of a ticker that is listed once holds its closes at the bars before,
      and nothing of the bar itself or later. */
  lemma {:induction false} HistoryIsPast(cfg: Config, panel: Panel, n: nat, bars: nat, t: Ticker, i: nat)
    requires Aligned(cfg, panel, n) && bars <= n && ListedOnce(cfg.tickers, t, i)
    ensures t in panel && |panel[t]| == n && Closes(RunTo(cfg, panel, n, bars).history, t) == panel[t][..bars]
    decreases bars
  {
    hide AfterOrders, AllSignals, AllStaged, AfterBorrow, AfterMark, ExtendedBy;
    assert cfg.tickers[i] in panel;
    if bars > 0 {
      HistoryIsPast(cfg, panel, n, bars - 1, t, i);
      var s, prices := RunTo(cfg, panel, n, bars - 1), PricesAt(cfg, panel, bars - 1);
      ExtendedOnce(cfg, s.history, prices, t, i, |cfg.tickers|);
      assert PriceOf(prices, t) == panel[t][bars - 1];
      assert panel[t][..bars] == panel[t][..bars - 1] + [panel[t][bars - 1]];
    }
  }
}

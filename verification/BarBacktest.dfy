/**
 The bar-by-bar backtester: a signal read at the close of the decision bar trades at the close some
 bars later, exits before entries and each in ticker order.

 The strategy's signal series and the standard deviation of recent returns are parameters. A mean
 over no volumes, which an aligned panel never asks for, is taken to be zero.
 */
module BarBacktest {
  import opened Wrappers
  import opened OrderedMaps
  import opened ExecutionModel
  import opened Reals
  import EventBacktest
  import Orders
  import Portfolios

  datatype Series = Series(close: seq<real>, volume: Option<seq<real>>)

  type Panel = map<Ticker, Series>

  type Positions = OrderedMap<Ticker, real>

  datatype Config = Config(
    initial: real,
    execution: Execution,
    signal: (seq<real>, nat) -> real,
    deviation: seq<real> -> real)

  datatype Trade = Trade(
    bar: nat,
    ticker: Ticker,
    side: Side,
    desired: real,
    qty: real,
    price: real,
    commission: real,
    slippageCost: real,
    spreadCost: real,
    totalCost: real,
    partial: bool,
    signal: real,
    positionAfter: real)

  datatype Book = Book(
    capital: real,
    positions: Positions,
    log: seq<Trade>,
    commission: real,
    slippage: real,
    spread: real,
    borrow: real,
    turnover: real,
    net: seq<real>,
    gross: seq<real>,
    netReturns: seq<real>,
    grossReturns: seq<real>)

  function Opening(initial: real): Book {
    Book(initial, [], [], 0.0, 0.0, 0.0, 0.0, 0.0, [], [], [], [])
  }

  function Held(m: Positions, t: Ticker): real {
    Portfolios.Held(m, t)
  }

  // ----- Ticker order

  function CodeOf(t: Ticker): Orders.Code {
    [seq(|t|, i requires 0 <= i < |t| => t[i] as int)]
  }

  function SortedTickers(tickers: seq<Ticker>): seq<Ticker> {
    var codes := Orders.CodesOf(tickers, CodeOf);
    Orders.Permute(tickers, Orders.SortOrder(codes, |tickers|))
  }

  /** The configured assets there is data for. */
  function Present(assets: seq<Ticker>, panel: Panel): seq<Ticker> {
    if assets == [] then []
    else if assets[|assets| - 1] in panel then Present(assets[..|assets| - 1], panel) + [assets[|assets| - 1]]
    else Present(assets[..|assets| - 1], panel)
  }

  /** The tickers of a run, in the order each bar goes through them. */
  function Traded(assets: seq<Ticker>, panel: Panel): seq<Ticker> {
    SortedTickers(Present(assets, panel))
  }

  // ----- What is known at the decision bar

  /** `x[lo:hi]`, as a slice that may reach past the end. */
  function Slice<T>(x: seq<T>, lo: nat, hi: nat): seq<T> {
    if lo >= |x| || hi <= lo then [] else if hi > |x| then x[lo..] else x[lo..hi]
  }

  function Mean(x: seq<real>): real {
    if x == [] then 0.0 else Sum(x) / (|x| as real)
  }

  function WindowStart(bar: nat): nat {
    if bar > 21 then bar - 21 else 0
  }

  /** The returns of the window that ends at `bar`. */
  function RecentReturns(close: seq<real>, bar: nat): seq<real>
    requires bar < |close|
  {
    EventBacktest.SimpleReturns(close[WindowStart(bar)..bar + 1])
  }

  /** `_pre_trade_liquidity`: daily volatility and average volume. */
  function Liquidity(cfg: Config, s: Series, bar: nat): (real, real)
    requires bar < |s.close|
  {
    (if bar > 1 then cfg.deviation(RecentReturns(s.close, bar)) else 0.02,
     if s.volume.Some? && bar > 1 then Mean(Slice(s.volume.value, WindowStart(bar), bar + 1)) else 1000000.0)
  }

  function SignalAt(cfg: Config, s: Series, n: nat, bar: nat): real {
    cfg.signal(Slice(s.close, 0, n), bar)
  }

  function ValueAt(panel: Panel, bar: nat): (Ticker, real) -> real {
    (t, q) => if t in panel && bar < |panel[t].close| then q * panel[t].close[bar] else 0.0
  }

  // ----- Orders

  /** What an order of one ticker at one bar is placed with. */
  datatype Quote = Quote(
    bar: nat,
    ticker: Ticker,
    signal: real,
    price: real,
    dailyVol: real,
    avgVolume: real,
    size: real)

  function QuoteFor(cfg: Config, panel: Panel, n: nat, bar: nat, decision: nat, equity: real, assets: nat,
          t: Ticker): Quote
    requires t in panel && decision <= bar < |panel[t].close|
  {
    var (vol, volume) := Liquidity(cfg, panel[t], decision);
    var price := panel[t].close[bar];
    Quote(bar, t, SignalAt(cfg, panel[t], n, decision), price, vol, volume,
          Shares(cfg.execution.sizer, equity, price, vol, 0.5, 1.5, assets))
  }

  function OrderOf(b: Book, q: Quote, side: Side, desired: real): Order {
    Order(side, desired, q.price, q.dailyVol, q.avgVolume, b.capital, Held(b.positions, q.ticker))
  }

  function Signed(side: Side, qty: real): real {
    if side.Buy? then qty else -qty
  }

  function TradeOf(b: Book, q: Quote, side: Side, desired: real, fill: FillResult): Trade
    requires fill.Filled?
  {
    Trade(q.bar, q.ticker, side, desired, fill.qty, fill.price, fill.commission, fill.slippageCost, fill.spreadCost,
          fill.totalCost, fill.partial, q.signal, Held(b.positions, q.ticker) + Signed(side, fill.qty))
  }

  /** What a trade does to cash. */
  function CashFlow(t: Trade): real {
    -(Signed(t.side, t.qty) * t.price) - t.commission
  }

  lemma CashMoved(t: Trade)
    ensures t.side.Buy? ==> CashFlow(t) == -(t.qty * t.price + t.commission)
    ensures t.side.Sell? ==> CashFlow(t) == t.qty * t.price - t.commission
  {
  }

  function Settled(b: Book, t: Trade): Book {
    b.(capital := b.capital + CashFlow(t),
       positions := Put(b.positions, t.ticker, t.positionAfter),
       log := b.log + [t],
       commission := b.commission + t.commission,
       slippage := b.slippage + t.slippageCost,
       spread := b.spread + t.spreadCost,
       turnover := b.turnover + t.qty)
  }

  function Placed(cfg: Config, b: Book, q: Quote, side: Side, desired: real): Book {
    var fill := ExecuteOrder(cfg.execution, OrderOf(b, q, side, desired));
    if fill.Filled? then Settled(b, TradeOf(b, q, side, desired, fill)) else b
  }

  /** A buy signal: closes a short position, then opens a long one. */
  function Entered(cfg: Config, b: Book, q: Quote): Book {
    var held := Held(b.positions, q.ticker);
    var covered := if held < 0.0 then Placed(cfg, b, q, Buy, Abs(held)) else b;
    if q.size > 0.0 then Placed(cfg, covered, q, Buy, q.size) else covered
  }

  /** A sell signal: closes the long position, then, where allowed, a strong one opens a short. */
  function Exited(cfg: Config, b: Book, q: Quote): Book {
    var sold := Placed(cfg, b, q, Sell, Abs(Held(b.positions, q.ticker)));
    if cfg.execution.allowShort && q.signal < -0.5 && q.size > 0.0 then Placed(cfg, sold, q, Sell, q.size) else sold
  }

  predicate Enters(b: Book, signal: real, t: Ticker) {
    signal > 0.0 && Held(b.positions, t) <= 0.0
  }

  predicate Exits(b: Book, signal: real, t: Ticker) {
    signal < 0.0 && Held(b.positions, t) > 0.0
  }

  function Acted(cfg: Config, b: Book, q: Quote): Book {
    if Enters(b, q.signal, q.ticker) then Entered(cfg, b, q)
    else if Exits(b, q.signal, q.ticker) then Exited(cfg, b, q)
    else b
  }

  // ----- One bar

  predicate HasBar(panel: Panel, t: Ticker, bar: nat) {
    t in panel && bar < |panel[t].close|
  }

  /** The tickers with a price at `bar` that are to be left, or to be entered. */
  function Chosen(cfg: Config, panel: Panel, n: nat, b: Book, bar: nat, decision: nat, tickers: seq<Ticker>,
          exits: bool): (r: seq<Ticker>)
    ensures forall i :: 0 <= i < |r| ==> HasBar(panel, r[i], bar)
  {
    if tickers == [] then []
    else
      var front, t := tickers[..|tickers| - 1], tickers[|tickers| - 1];
      var rest := Chosen(cfg, panel, n, b, bar, decision, front, exits);
      if HasBar(panel, t, bar) && (if exits then Exits(b, SignalAt(cfg, panel[t], n, decision), t)
                                   else Enters(b, SignalAt(cfg, panel[t], n, decision), t))
      then rest + [t]
      else rest
  }

  function ActedAll(cfg: Config, panel: Panel, n: nat, b: Book, bar: nat, decision: nat, equity: real, assets: nat,
          queue: seq<Ticker>): Book
    requires decision <= bar && forall i :: 0 <= i < |queue| ==> HasBar(panel, queue[i], bar)
  {
    if queue == [] then b
    else
      var front, t := queue[..|queue| - 1], queue[|queue| - 1];
      assert HasBar(panel, t, bar);
      Acted(cfg, ActedAll(cfg, panel, n, b, bar, decision, equity, assets, front),
            QuoteFor(cfg, panel, n, bar, decision, equity, assets, t))
  }

  function BorrowOn(cfg: Config, panel: Panel, bar: nat, t: Ticker, q: real): real {
    if q < 0.0 && HasBar(panel, t, bar) then DailyBorrow(cfg.execution.borrow, t, q, panel[t].close[bar]) else 0.0
  }

  function BorrowAt(cfg: Config, panel: Panel, bar: nat): (Ticker, real) -> real {
    (t, q) => BorrowOn(cfg, panel, bar, t, q)
  }

  function Accrued(cfg: Config, panel: Panel, b: Book, bar: nat): Book {
    var cost := Portfolios.Total(b.positions, BorrowAt(cfg, panel, bar));
    b.(capital := b.capital - cost, borrow := b.borrow + cost)
  }

  function Equity(panel: Panel, b: Book, bar: nat): real {
    b.capital + Portfolios.Total(b.positions, ValueAt(panel, bar))
  }

  /** The returns lists after a mark: both grow when there is a net value to divide by. */
  function NextReturns(b: Book, value: real, costless: real): (seq<real>, seq<real>) {
    if b.net == [] || b.gross == [] || b.net[|b.net| - 1] <= 0.0 then (b.netReturns, b.grossReturns)
    else
      var net, gross := b.net[|b.net| - 1], b.gross[|b.gross| - 1];
      (b.netReturns + [Growth(value, net)], b.grossReturns + [if gross > 0.0 then Growth(costless, gross) else 0.0])
  }

  function Growth(now: real, before: real): real
    requires before != 0.0
  {
    (now - before) / before
  }

  function Marked(panel: Panel, b: Book, bar: nat): Book {
    var value := Equity(panel, b, bar);
    var costless := value + b.commission + b.slippage + b.spread + b.borrow;
    var (netReturns, grossReturns) := NextReturns(b, value, costless);
    b.(net := b.net + [value], gross := b.gross + [costless], netReturns := netReturns, grossReturns := grossReturns)
  }

  /** The trades of one bar: exits, then entries. */
  function TradedOn(cfg: Config, panel: Panel, tickers: seq<Ticker>, n: nat, b: Book, bar: nat, decision: nat): Book
    requires decision <= bar
  {
    ActedAll(cfg, panel, n, b, bar, decision, Equity(panel, b, decision), |tickers|,
             Chosen(cfg, panel, n, b, bar, decision, tickers, true) + Chosen(cfg, panel, n, b, bar, decision, tickers, false))
  }

  function AfterBar(cfg: Config, panel: Panel, tickers: seq<Ticker>, n: nat, b: Book, bar: nat, decision: nat): Book
    requires decision <= bar
  {
    Marked(panel, Accrued(cfg, panel, TradedOn(cfg, panel, tickers, n, b, bar, decision), bar), bar)
  }

  /** The book once the bars from `first` up to `bar`, without it, are done. */
  function RunTo(cfg: Config, panel: Panel, tickers: seq<Ticker>, n: nat, first: nat, bar: nat): Book
    requires 1 <= cfg.execution.delayBars <= first
  {
    if bar <= first then Opening(cfg.initial)
    else
      AfterBar(cfg, panel, tickers, n, RunTo(cfg, panel, tickers, n, first, bar - 1), bar - 1,
               bar - 1 - cfg.execution.delayBars)
  }

  function FirstBar(cfg: Config, startBar: int): nat
    requires cfg.execution.delayBars >= 1
  {
    if startBar > cfg.execution.delayBars then startBar else cfg.execution.delayBars
  }

  /** What `_run_strategy` computes from the listed assets. */
  function Backtest(cfg: Config, assets: seq<Ticker>, panel: Panel, startBar: int, n: nat): Book
    requires cfg.execution.delayBars >= 1
  {
    RunTo(cfg, panel, Traded(assets, panel), n, FirstBar(cfg, startBar), n)
  }

  // ----- The engine

  class Engine {
    const cfg: Config
    const panel: Panel
    var capital: real
    var positions: Positions
    var tradeLog: seq<Trade>
    var totalCommission: real
    var totalSlippage: real
    var totalSpread: real
    var totalBorrow: real
    var turnover: real
    var netCurve: seq<real>
    var grossCurve: seq<real>
    var netReturns: seq<real>
    var grossReturns: seq<real>

    constructor (cfg: Config, panel: Panel)
      ensures this.cfg == cfg && this.panel == panel
      ensures Abstract() == Opening(cfg.initial)
    {
      this.cfg, this.panel := cfg, panel;
      capital, positions, tradeLog := cfg.initial, [], [];
      totalCommission, totalSlippage, totalSpread, totalBorrow, turnover := 0.0, 0.0, 0.0, 0.0, 0.0;
      netCurve, grossCurve, netReturns, grossReturns := [], [], [], [];
    }

    function Abstract(): Book
      reads this
    {
      Book(capital, positions, tradeLog, totalCommission, totalSlippage, totalSpread, totalBorrow, turnover,
           netCurve, grossCurve, netReturns, grossReturns)
    }

    method Place(q: Quote, side: Side, desired: real)
      modifies this
      ensures Abstract() == Placed(cfg, old(Abstract()), q, side, desired)
    {
      hide ExecuteOrder, Held, Settled;
      var held := Held(positions, q.ticker);
      var fill := ExecuteOrder(cfg.execution, Order(side, desired, q.price, q.dailyVol, q.avgVolume, capital, held));
      if fill.Filled? {
        Settle(Trade(q.bar, q.ticker, side, desired, fill.qty, fill.price, fill.commission, fill.slippageCost,
                     fill.spreadCost, fill.totalCost, fill.partial, q.signal,
                     if side.Buy? then held + fill.qty else held - fill.qty));
      }
    }

    /** A filled order reaches cash, position, totals and log. */
    method Settle(t: Trade)
      modifies this
      ensures Abstract() == Settled(old(Abstract()), t)
    {
      hide Put, CashFlow;
      CashMoved(t);
      if t.side.Buy? {
        capital := capital - (t.qty * t.price + t.commission);
      } else {
        capital := capital + (t.qty * t.price - t.commission);
      }
      positions := Put(positions, t.ticker, t.positionAfter);
      totalCommission := totalCommission + t.commission;
      totalSlippage := totalSlippage + t.slippageCost;
      totalSpread := totalSpread + t.spreadCost;
      turnover := turnover + t.qty;
      tradeLog := tradeLog + [t];
    }

    method Act(q: Quote)
      modifies this
      ensures Abstract() == Acted(cfg, old(Abstract()), q)
    {
      hide Placed;
      var held := Held(positions, q.ticker);
      if q.signal > 0.0 && held <= 0.0 {
        if held < 0.0 {
          Place(q, Buy, Abs(held));
        }
        if q.size > 0.0 {
          Place(q, Buy, q.size);
        }
      } else if q.signal < 0.0 && held > 0.0 {
        Place(q, Sell, Abs(held));
        if cfg.execution.allowShort && q.signal < -0.5 && q.size > 0.0 {
          Place(q, Sell, q.size);
        }
      }
    }

    /** The exits and the entries of a bar, each in ticker order. */
    method Choose(tickers: seq<Ticker>, n: nat, bar: nat, decision: nat)
      returns (exits: seq<Ticker>, entries: seq<Ticker>)
      ensures exits == Chosen(cfg, panel, n, Abstract(), bar, decision, tickers, true)
      ensures entries == Chosen(cfg, panel, n, Abstract(), bar, decision, tickers, false)
    {
      hide SignalAt;
      exits, entries := [], [];
      for i := 0 to |tickers|
        invariant exits == Chosen(cfg, panel, n, Abstract(), bar, decision, tickers[..i], true)
        invariant entries == Chosen(cfg, panel, n, Abstract(), bar, decision, tickers[..i], false)
      {
        assert tickers[..i + 1][..i] == tickers[..i];
        var t := tickers[i];
        if HasBar(panel, t, bar) {
          var signal := SignalAt(cfg, panel[t], n, decision);
          var held := Held(positions, t);
          if signal < 0.0 && held > 0.0 {
            exits := exits + [t];
          } else if signal > 0.0 && held <= 0.0 {
            entries := entries + [t];
          }
        }
      }
      assert tickers[..|tickers|] == tickers;
    }

    method TradeBar(tickers: seq<Ticker>, n: nat, bar: nat, decision: nat)
      requires decision <= bar
      modifies this
      ensures Abstract() == TradedOn(cfg, panel, tickers, n, old(Abstract()), bar, decision)
    {
      hide Acted, QuoteFor, Chosen;
      var equity := Equity(panel, Abstract(), decision);
      var exits, entries := Choose(tickers, n, bar, decision);
      var queue := exits + entries;
      ghost var was := Abstract();
      for i := 0 to |queue|
        invariant Abstract() == ActedAll(cfg, panel, n, was, bar, decision, equity, |tickers|, queue[..i])
      {
        assert queue[..i + 1][..i] == queue[..i];
        assert HasBar(panel, queue[i], bar);
        Act(QuoteFor(cfg, panel, n, bar, decision, equity, |tickers|, queue[i]));
      }
      assert queue[..|queue|] == queue;
    }

    method AccrueBorrow(bar: nat)
      modifies this`capital, this`totalBorrow
      ensures Abstract() == Accrued(cfg, panel, old(Abstract()), bar)
    {
      hide BorrowAt;
      var cost := BorrowAt(cfg, panel, bar);
      var i := 0;
      assert positions[0..] == positions;
      while i < |positions|
        invariant 0 <= i <= |positions|
        invariant capital - Portfolios.Total(positions[i..], cost) == old(capital) - Portfolios.Total(positions, cost)
        invariant totalBorrow + Portfolios.Total(positions[i..], cost) == old(totalBorrow) + Portfolios.Total(positions, cost)
      {
        assert positions[i..][1..] == positions[i + 1..];
        var bc := cost(positions[i].key, positions[i].value);
        capital := capital - bc;
        totalBorrow := totalBorrow + bc;
        i := i + 1;
      }
    }

    /** The loop that values the positions at the bar's closes. */
    method MarketValue(bar: nat) returns (value: real)
      ensures value == Equity(panel, Abstract(), bar)
    {
      hide ValueAt;
      var worth := ValueAt(panel, bar);
      value := capital;
      var i := 0;
      assert positions[0..] == positions;
      while i < |positions|
        invariant 0 <= i <= |positions|
        invariant value + Portfolios.Total(positions[i..], worth) == capital + Portfolios.Total(positions, worth)
      {
        assert positions[i..][1..] == positions[i + 1..];
        value := value + worth(positions[i].key, positions[i].value);
        i := i + 1;
      }
    }

    method Mark(bar: nat)
      modifies this`netCurve, this`grossCurve, this`netReturns, this`grossReturns
      ensures Abstract() == Marked(panel, old(Abstract()), bar)
    {
      hide Equity, Growth;
      var value := MarketValue(bar);
      netCurve := netCurve + [value];
      grossCurve := grossCurve + [value + totalCommission + totalSlippage + totalSpread + totalBorrow];
      if |netCurve| > 1 && |grossCurve| > 1 {
        var prev, prevGross := netCurve[|netCurve| - 2], grossCurve[|grossCurve| - 2];
        if prev > 0.0 {
          netReturns := netReturns + [Growth(netCurve[|netCurve| - 1], prev)];
          grossReturns := grossReturns
            + [if prevGross > 0.0 then Growth(grossCurve[|grossCurve| - 1], prevGross) else 0.0];
        }
      }
    }
  }

  /** `_run_strategy` up to the figures derived from the curves: None where the delay is refused. */
  method RunStrategy(cfg: Config, assets: seq<Ticker>, panel: Panel, startBar: int,
          n: nat) returns (result: Option<Engine>)
    ensures result.Some? <==> cfg.execution.delayBars >= 1
    ensures result.Some? ==> result.value.Abstract() == Backtest(cfg, assets, panel, startBar, n)
  {
    hide TradedOn, Accrued, Marked, Traded;
    var delay := cfg.execution.delayBars;
    if delay < 1 {
      return None;
    }
    var engine := new Engine(cfg, panel);
    var tickers := Traded(assets, panel);
    var first := FirstBar(cfg, startBar);
    var bar := first;
    while bar < n
      invariant first <= bar && (bar <= n || bar == first)
      invariant engine.cfg == cfg && engine.panel == panel && fresh(engine)
      invariant engine.Abstract() == RunTo(cfg, panel, tickers, n, first, bar)
    {
      engine.TradeBar(tickers, n, bar, bar - delay);
      engine.AccrueBorrow(bar);
      engine.Mark(bar);
      bar := bar + 1;
    }
    return Some(engine);
  }

  // ----- The listed order of the assets

  predicate InOrder(tickers: seq<Ticker>) {
    forall i, j :: 0 <= i < j < |tickers| ==> !Orders.CodeLess(CodeOf(tickers[j]), CodeOf(tickers[i]))
  }

  lemma CodeInjective(a: Ticker, b: Ticker)
    requires CodeOf(a) == CodeOf(b)
    ensures a == b
  {
    assert |a| == |CodeOf(a)[0]| && |b| == |CodeOf(b)[0]|;
    forall i | 0 <= i < |a|
      ensures a[i] == b[i]
    {
      assert CodeOf(a)[0][i] == a[i] as int && CodeOf(b)[0][i] == b[i] as int;
    }
  }

  lemma {:induction false} InsertAdds(tickers: seq<Ticker>, codes: seq<Orders.Code>, order: seq<nat>, index: nat)
    requires |codes| == |tickers| && index < |tickers| && forall k :: 0 <= k < |order| ==> order[k] < |tickers|
    ensures multiset(Orders.Permute(tickers, Orders.Insert(codes, order, index)))
         == multiset(Orders.Permute(tickers, order)) + multiset{tickers[index]}
  {
    hide Orders.CodeLess;
    var r := Orders.Insert(codes, order, index);
    if order == [] || !Orders.CodeLess(codes[index], codes[order[|order| - 1]]) {
      assert Orders.Permute(tickers, r) == Orders.Permute(tickers, order) + [tickers[index]];
    } else {
      var front, last := order[..|order| - 1], order[|order| - 1];
      InsertAdds(tickers, codes, front, index);
      assert Orders.Permute(tickers, order) == Orders.Permute(tickers, front) + [tickers[last]];
      assert Orders.Permute(tickers, r) == Orders.Permute(tickers, Orders.Insert(codes, front, index)) + [tickers[last]];
    }
  }

  lemma {:induction false} OrderKeepsAll(tickers: seq<Ticker>, codes: seq<Orders.Code>, n: nat)
    requires |codes| == |tickers| && n <= |tickers|
    ensures multiset(Orders.Permute(tickers, Orders.SortOrder(codes, n))) == multiset(tickers[..n])
  {
    hide Orders.Insert, Orders.CodeLess, Orders.Permute;
    if n > 0 {
      OrderKeepsAll(tickers, codes, n - 1);
      InsertAdds(tickers, codes, Orders.SortOrder(codes, n - 1), n - 1);
      assert tickers[..n] == tickers[..n - 1] + [tickers[n - 1]];
    }
  }

  /** The tickers of a run are in order, and are the listed ones. */
  lemma SortedIsSorted(tickers: seq<Ticker>)
    ensures InOrder(SortedTickers(tickers))
    ensures multiset(SortedTickers(tickers)) == multiset(tickers)
  {
    var codes := Orders.CodesOf(tickers, CodeOf);
    Orders.SortOrderSorts(codes, |tickers|);
    OrderKeepsAll(tickers, codes, |tickers|);
    assert tickers[..|tickers|] == tickers;
    var order := Orders.SortOrder(codes, |tickers|);
    forall i, j | 0 <= i < j < |tickers|
      ensures !Orders.CodeLess(CodeOf(SortedTickers(tickers)[j]), CodeOf(SortedTickers(tickers)[i]))
    {
      assert !Orders.CodeLess(codes[order[j]], codes[order[i]]);
    }
  }

  lemma FirstIsLeast(a: seq<Ticker>, t: Ticker)
    requires InOrder(a) && t in multiset(a)
    ensures a != [] && (t == a[0] || !Orders.CodeLess(CodeOf(t), CodeOf(a[0])))
  {
    hide CodeOf, Orders.CodeLess;
  }

  lemma {:induction false} InOrderUnique(a: seq<Ticker>, b: seq<Ticker>)
    requires InOrder(a) && InOrder(b) && multiset(a) == multiset(b)
    ensures a == b
  {
    hide CodeOf, InOrder, Orders.CodeLess;
    assert |a| == |multiset(a)| == |multiset(b)| == |b|;
    if a != [] {
      FirstIsLeast(b, a[0]);
      FirstIsLeast(a, b[0]);
      Orders.CodeLessTotal(CodeOf(a[0]), CodeOf(b[0]));
      if a[0] != b[0] {
        CodeInjective(a[0], b[0]);
      }
      TailOf(a);
      TailOf(b);
      InOrderUnique(a[1..], b[1..]);
      assert a == [a[0]] + a[1..] && b == [b[0]] + b[1..];
    }
  }

  lemma TailOf(a: seq<Ticker>)
    requires a != [] && InOrder(a)
    ensures InOrder(a[1..])
    ensures multiset(a[1..]) == multiset(a) - multiset{a[0]}
  {
    hide CodeOf, Orders.CodeLess;
    assert forall i :: 0 <= i < |a| - 1 ==> a[1..][i] == a[i + 1];
    assert a == [a[0]] + a[1..];
  }

  lemma {:induction false} PresentCounts(assets: seq<Ticker>, panel: Panel, t: Ticker)
    ensures multiset(Present(assets, panel))[t] == if t in panel then multiset(assets)[t] else 0
  {
    if assets != [] {
      PresentCounts(assets[..|assets| - 1], panel, t);
      assert assets == assets[..|assets| - 1] + [assets[|assets| - 1]];
    }
  }

  /** The trade log, the cash, the positions and both equity curves do not depend on the order the
      assets are listed in. */
  lemma ListedOrderIrrelevant(cfg: Config, a: seq<Ticker>, b: seq<Ticker>, panel: Panel, startBar: int, n: nat)
    requires multiset(a) == multiset(b) && cfg.execution.delayBars >= 1
    ensures Backtest(cfg, a, panel, startBar, n) == Backtest(cfg, b, panel, startBar, n)
  {
    hide RunTo, SortedTickers, InOrder;
    forall t
      ensures multiset(Present(a, panel))[t] == multiset(Present(b, panel))[t]
    {
      PresentCounts(a, panel, t);
      PresentCounts(b, panel, t);
    }
    assert multiset(Present(a, panel)) == multiset(Present(b, panel));
    SortedIsSorted(Present(a, panel));
    SortedIsSorted(Present(b, panel));
    InOrderUnique(Traded(a, panel), Traded(b, panel));
  }

  // ----- Induction over a run

  /** No recorded volume is negative. */
  predicate VolumesNotNegative(panel: Panel) {
    forall t :: t in panel && panel[t].volume.Some? ==>
      forall i :: 0 <= i < |panel[t].volume.value| ==> panel[t].volume.value[i] >= 0.0
  }

  lemma {:induction false} MeanNotNegative(x: seq<real>)
    requires forall i :: 0 <= i < |x| ==> x[i] >= 0.0
    ensures Sum(x) >= 0.0 && Mean(x) >= 0.0
  {
    if x != [] {
      MeanNotNegative(x[..|x| - 1]);
    }
  }

  lemma VolumeNotNegative(cfg: Config, panel: Panel, t: Ticker, decision: nat)
    requires VolumesNotNegative(panel) && t in panel && decision < |panel[t].close|
    ensures Liquidity(cfg, panel[t], decision).1 >= 0.0
  {
    hide Mean;
    if panel[t].volume.Some? {
      MeanNotNegative(Slice(panel[t].volume.value, WindowStart(decision), decision + 1));
    }
  }

  /** The average volume known when the orders of `bar` were decided. */
  function VolumeFor(cfg: Config, panel: Panel, t: Ticker, bar: nat): (v: real)
    ensures VolumesNotNegative(panel) ==> v >= 0.0
  {
    var delay := cfg.execution.delayBars;
    if t in panel && 1 <= delay <= bar && bar - delay < |panel[t].close| then
      assert VolumesNotNegative(panel) ==> Liquidity(cfg, panel[t], bar - delay).1 >= 0.0 by {
        if VolumesNotNegative(panel) { VolumeNotNegative(cfg, panel, t, bar - delay); }
      }
      Liquidity(cfg, panel[t], bar - delay).1
    else 0.0
  }

  /** A quote carries the average volume of its ticker at its decision bar. */
  predicate Quoted(cfg: Config, panel: Panel, q: Quote) {
    q.avgVolume == VolumeFor(cfg, panel, q.ticker, q.bar)
  }

  /** What every order, every borrow charge and every mark keeps. */
  ghost predicate Kept(cfg: Config, panel: Panel, inv: Book -> bool) {
    && (forall b, q, side, desired :: inv(b) && Quoted(cfg, panel, q) ==> inv(Placed(cfg, b, q, side, desired)))
    && (forall b, bar :: inv(b) ==> inv(Accrued(cfg, panel, b, bar)))
    && (forall b, bar :: inv(b) ==> inv(Marked(panel, b, bar)))
  }

  lemma ActedKeeps(cfg: Config, panel: Panel, inv: Book -> bool, b: Book, q: Quote)
    requires Kept(cfg, panel, inv) && inv(b) && Quoted(cfg, panel, q)
    ensures inv(Acted(cfg, b, q))
  {
    hide Placed, Quoted, Accrued, Marked;
  }

  lemma {:induction false} ActedAllKeeps(cfg: Config, panel: Panel, inv: Book -> bool, n: nat, b: Book, bar: nat,
                                         decision: nat, equity: real, assets: nat, queue: seq<Ticker>)
    requires Kept(cfg, panel, inv) && inv(b)
    requires 1 <= cfg.execution.delayBars == bar - decision
    requires forall i :: 0 <= i < |queue| ==> HasBar(panel, queue[i], bar)
    ensures inv(ActedAll(cfg, panel, n, b, bar, decision, equity, assets, queue))
  {
    hide Kept, Acted, VolumesNotNegative, Liquidity, Shares;
    if queue != [] {
      var front, t := queue[..|queue| - 1], queue[|queue| - 1];
      assert HasBar(panel, t, bar);
      ActedAllKeeps(cfg, panel, inv, n, b, bar, decision, equity, assets, front);
      ActedKeeps(cfg, panel, inv, ActedAll(cfg, panel, n, b, bar, decision, equity, assets, front),
                 QuoteFor(cfg, panel, n, bar, decision, equity, assets, t));
    }
  }

  /** What the opening book has and every step keeps, every reachable book has. */
  lemma {:induction false} RunKeeps(cfg: Config, panel: Panel, inv: Book -> bool, tickers: seq<Ticker>, n: nat,
          first: nat, bar: nat)
    requires 1 <= cfg.execution.delayBars <= first
    requires Kept(cfg, panel, inv) && inv(Opening(cfg.initial))
    ensures inv(RunTo(cfg, panel, tickers, n, first, bar))
  {
    hide Placed, ActedAll, Accrued, Marked, Opening, Chosen, Equity;
    if bar > first {
      RunKeeps(cfg, panel, inv, tickers, n, first, bar - 1);
      var b := RunTo(cfg, panel, tickers, n, first, bar - 1);
      var decision := bar - 1 - cfg.execution.delayBars;
      ActedAllKeeps(cfg, panel, inv, n, b, bar - 1, decision, Equity(panel, b, decision), |tickers|,
                    Chosen(cfg, panel, n, b, bar - 1, decision, tickers, true)
                    + Chosen(cfg, panel, n, b, bar - 1, decision, tickers, false));
    }
  }

  // ----- The trade log accounts for everything

  function SumOf(log: seq<Trade>, f: Trade -> real): real {
    if log == [] then 0.0 else SumOf(log[..|log| - 1], f) + f(log[|log| - 1])
  }

  lemma SumAppend(log: seq<Trade>, t: Trade, f: Trade -> real)
    ensures SumOf(log + [t], f) == SumOf(log, f) + f(t)
  {
    assert (log + [t])[..|log|] == log;
  }

  function Moves(ticker: Ticker): Trade -> real {
    (t: Trade) => if t.ticker == ticker then Signed(t.side, t.qty) else 0.0
  }

  function Commissions(): Trade -> real {
    (t: Trade) => t.commission
  }

  function SlippageCosts(): Trade -> real {
    (t: Trade) => t.slippageCost
  }

  function SpreadCosts(): Trade -> real {
    (t: Trade) => t.spreadCost
  }

  function Quantities(): Trade -> real {
    (t: Trade) => t.qty
  }

  /** Cash after the trades of a log alone. */
  function CashAfter(initial: real, log: seq<Trade>): real {
    initial + SumOf(log, CashFlow)
  }

  /** The log explains the cash, up to borrow, the positions, the cost totals and the turnover. */
  ghost predicate Balanced(initial: real, b: Book) {
    && DistinctKeys(b.positions)
    && b.capital == CashAfter(initial, b.log) - b.borrow
    && b.commission == SumOf(b.log, Commissions())
    && b.slippage == SumOf(b.log, SlippageCosts())
    && b.spread == SumOf(b.log, SpreadCosts())
    && b.turnover == SumOf(b.log, Quantities())
    && (forall t :: Held(b.positions, t) == SumOf(b.log, Moves(t)))
  }

  lemma SettledBalanced(initial: real, b: Book, t: Trade)
    requires Balanced(initial, b) && t.positionAfter == Held(b.positions, t.ticker) + Signed(t.side, t.qty)
    ensures Balanced(initial, Settled(b, t))
  {
    hide SumOf, Put, Find, CashFlow;
    var s := Settled(b, t);
    SumAppend(b.log, t, CashFlow);
    SumAppend(b.log, t, Commissions());
    SumAppend(b.log, t, SlippageCosts());
    SumAppend(b.log, t, SpreadCosts());
    SumAppend(b.log, t, Quantities());
    FindAfterPut(b.positions, t.ticker, t.positionAfter, t.ticker);
    forall other
      ensures Held(s.positions, other) == SumOf(s.log, Moves(other))
    {
      SumAppend(b.log, t, Moves(other));
      FindAfterPut(b.positions, t.ticker, t.positionAfter, other);
    }
  }

  lemma PlacedBalanced(cfg: Config, b: Book, q: Quote, side: Side, desired: real)
    requires Balanced(cfg.initial, b)
    ensures Balanced(cfg.initial, Placed(cfg, b, q, side, desired))
  {
    hide ExecuteOrder, Balanced, Settled;
    var fill := ExecuteOrder(cfg.execution, OrderOf(b, q, side, desired));
    if fill.Filled? {
      SettledBalanced(cfg.initial, b, TradeOf(b, q, side, desired, fill));
    }
  }

  ghost function IsBalanced(initial: real): Book -> bool {
    (b: Book) => Balanced(initial, b)
  }

  /** At every bar, under any configuration: cash is the initial capital plus the cash flows of the
      logged trades less borrow, and each position is the sum of its logged trades. */
  lemma RunBalances(cfg: Config, panel: Panel, tickers: seq<Ticker>, n: nat, first: nat, bar: nat)
    requires 1 <= cfg.execution.delayBars <= first
    ensures Balanced(cfg.initial, RunTo(cfg, panel, tickers, n, first, bar))
  {
    hide Placed, RunTo, Accrued, Marked, Balanced;
    var inv := IsBalanced(cfg.initial);
    forall b, q, side, desired | inv(b)
      ensures inv(Placed(cfg, b, q, side, desired))
    {
      PlacedBalanced(cfg, b, q, side, desired);
    }
    forall b, at: nat | inv(b)
      ensures inv(Accrued(cfg, panel, b, at)) && inv(Marked(panel, b, at))
    {
      BarEndBalanced(cfg, panel, b, at);
    }
    OpeningBalanced(cfg.initial);
    RunKeeps(cfg, panel, inv, tickers, n, first, bar);
  }

  lemma BarEndBalanced(cfg: Config, panel: Panel, b: Book, bar: nat)
    requires Balanced(cfg.initial, b)
    ensures Balanced(cfg.initial, Accrued(cfg, panel, b, bar)) && Balanced(cfg.initial, Marked(panel, b, bar))
  {
    hide CashAfter, Equity;
  }

  lemma OpeningBalanced(initial: real)
    ensures Balanced(initial, Opening(initial))
  {
  }

  // ----- Daily returns

  /** The curves have one point a bar; where the net curve is positive throughout, there is a return
      between any two points, and compounded they lead from its first point to its last. */
  predicate ReturnsExplain(b: Book) {
    && |b.net| == |b.gross| && |b.netReturns| == |b.grossReturns|
    && ((forall i :: 0 <= i < |b.net| ==> b.net[i] > 0.0) && b.net != [] ==>
          && |b.netReturns| == |b.net| - 1
          && Product(EventBacktest.Compound(b.netReturns), b.net[0]) == b.net[|b.net| - 1])
    && (b.net == [] ==> b.netReturns == [])
  }

  lemma MarkedReturns(panel: Panel, b: Book, bar: nat)
    requires ReturnsExplain(b)
    ensures ReturnsExplain(Marked(panel, b, bar))
  {
    hide Equity, Product;
    var m := Marked(panel, b, bar);
    assert forall i :: 0 <= i < |b.net| ==> m.net[i] == b.net[i];
    if b.net == [] {
      OneOf(m.net[0]);
    } else if forall i :: 0 <= i < |m.net| ==> m.net[i] > 0.0 {
      var last, value := b.net[|b.net| - 1], m.net[|b.net|];
      assert m.net[|b.net| - 1] == last;
      assert (b.netReturns + [(value - last) / last])[..|b.netReturns|] == b.netReturns;
      EventBacktest.CompoundStep(EventBacktest.Compound(b.netReturns), b.net[0], last, value);
    }
  }

  lemma OneOf(x: real)
    ensures Product(1.0, x) == x
  {
  }

  ghost function HasReturns(): Book -> bool {
    (b: Book) => ReturnsExplain(b)
  }

  /** At every bar under any configuration the daily returns explain the net curve. */
  lemma RunReturns(cfg: Config, panel: Panel, tickers: seq<Ticker>, n: nat, first: nat, bar: nat)
    requires 1 <= cfg.execution.delayBars <= first
    ensures ReturnsExplain(RunTo(cfg, panel, tickers, n, first, bar))
  {
    hide RunTo, ReturnsExplain;
    var inv := HasReturns();
    forall b, q, side, desired | inv(b)
      ensures inv(Placed(cfg, b, q, side, desired))
    {
      SameCurves(b, Placed(cfg, b, q, side, desired));
    }
    forall b, at: nat | inv(b)
      ensures inv(Accrued(cfg, panel, b, at)) && inv(Marked(panel, b, at))
    {
      SameCurves(b, Accrued(cfg, panel, b, at));
      MarkedReturns(panel, b, at);
    }
    NoCurves(cfg.initial);
    RunKeeps(cfg, panel, inv, tickers, n, first, bar);
  }

  lemma SameCurves(b: Book, c: Book)
    requires ReturnsExplain(b)
    requires c.net == b.net && c.gross == b.gross && c.netReturns == b.netReturns && c.grossReturns == b.grossReturns
    ensures ReturnsExplain(c)
  {
  }

  lemma NoCurves(initial: real)
    ensures ReturnsExplain(Opening(initial))
  {
  }

  // ----- Fills against orders and volume caps

  /** No fill exceeds its order, or the volume cap it was decided under, by more than its rounding. */
  predicate WithinLimits(cfg: Config, panel: Panel, log: seq<Trade>) {
    forall k :: 0 <= k < |log| ==>
      && 0.0 <= log[k].qty <= Abs(log[k].desired) + 0.0000005
      && log[k].qty <= VolumeCap(cfg.execution.slippage, VolumeFor(cfg, panel, log[k].ticker, log[k].bar)) + 0.0000005
  }

  ghost function IsWithinLimits(cfg: Config, panel: Panel): Book -> bool {
    (b: Book) => WithinLimits(cfg, panel, b.log)
  }

  lemma PlacedWithinLimits(cfg: Config, panel: Panel, b: Book, q: Quote, side: Side, desired: real)
    requires VolumesNotNegative(panel) && cfg.execution.slippage.participationLimit >= 0.0
    requires WithinLimits(cfg, panel, b.log) && Quoted(cfg, panel, q)
    ensures WithinLimits(cfg, panel, Placed(cfg, b, q, side, desired).log)
  {
    hide ExecuteOrder, VolumeFor, VolumeCap, VolumesNotNegative, Put, Held;
    var o := OrderOf(b, q, side, desired);
    CapNotNegative(cfg.execution.slippage, q.avgVolume);
    FillWithinLimits(cfg.execution, o);
  }

  /** At every bar under any configuration, short sales included: no logged fill exceeds its order or
      its volume cap, where volumes are not negative. */
  lemma RunStaysWithinLimits(cfg: Config, panel: Panel, tickers: seq<Ticker>, n: nat, first: nat, bar: nat)
    requires 1 <= cfg.execution.delayBars <= first
    requires VolumesNotNegative(panel) && cfg.execution.slippage.participationLimit >= 0.0
    ensures WithinLimits(cfg, panel, RunTo(cfg, panel, tickers, n, first, bar).log)
  {
    hide Placed, RunTo, VolumesNotNegative, WithinLimits, Quoted;
    var inv := IsWithinLimits(cfg, panel);
    forall b, q, side, desired | inv(b) && Quoted(cfg, panel, q)
      ensures inv(Placed(cfg, b, q, side, desired))
    {
      PlacedWithinLimits(cfg, panel, b, q, side, desired);
    }
    NothingLogged(cfg, panel);
    RunKeeps(cfg, panel, inv, tickers, n, first, bar);
  }

  lemma NothingLogged(cfg: Config, panel: Panel)
    ensures WithinLimits(cfg, panel, [])
  {
  }

  // ----- No short sales: positions, and the cash bound

  /** The configurations whose rates are fractions. */
  predicate Sensible(cfg: Config) {
    && 0.0 <= cfg.execution.cashReservePct <= 1.0
    && 0.0 <= cfg.execution.commission.maxPctOfNotional <= 1.0
    && cfg.execution.slippage.participationLimit >= 0.0
  }

  /** The lowest cash a log allows: zero, or the initial capital where that is negative, and minus the
      commission cap on the cash before the last buy once there is one; less the rounding of that buy
      and of what was sold since. */
  function CashFloor(maxPct: real, initial: real, log: seq<Trade>): real {
    if log == [] then Min(0.0, initial)
    else
      var front, last := log[..|log| - 1], log[|log| - 1];
      (if last.side.Buy? then -Product(maxPct, CashAfter(initial, front)) else CashFloor(maxPct, initial, front))
      - Slack(last.qty, last.price)
  }

  predicate Funded(initial: real, log: seq<Trade>) {
    forall k :: 0 <= k < |log| && log[k].side.Buy? ==> CashAfter(initial, log[..k]) > 0.0
  }

  predicate WholeLongs(m: Positions) {
    forall i :: 0 <= i < |m| ==> m[i].value >= 0.0 && OnGrid(m[i].value)
  }

  ghost predicate LongOnly(cfg: Config, b: Book) {
    && DistinctKeys(b.positions)
    && WholeLongs(b.positions)
    && b.borrow == 0.0
    && b.capital == CashAfter(cfg.initial, b.log)
    && b.capital >= CashFloor(cfg.execution.commission.maxPctOfNotional, cfg.initial, b.log)
    && Funded(cfg.initial, b.log)
  }

  lemma HeldWhole(m: Positions, t: Ticker)
    requires DistinctKeys(m) && WholeLongs(m)
    ensures Held(m, t) >= 0.0 && OnGrid(Held(m, t))
  {
    hide OnGrid;
    WholeOnGrid(0.0, 0);
    if Has(m, t) {
      FindInEntry(m, t, Find(m, t).value);
    }
  }

  lemma PutWhole(m: Positions, t: Ticker, q: real)
    requires DistinctKeys(m) && WholeLongs(m) && q >= 0.0 && OnGrid(q)
    ensures DistinctKeys(Put(m, t, q)) && WholeLongs(Put(m, t, q))
  {
    hide OnGrid, Put, Find;
    PutShape(m, t, q);
    FindAfterPut(m, t, q, t);
  }

  lemma SettledLong(cfg: Config, b: Book, t: Trade)
    requires LongOnly(cfg, b)
    requires t.positionAfter >= 0.0 && OnGrid(t.positionAfter)
    requires var pct := cfg.execution.commission.maxPctOfNotional;
             if t.side.Buy? then b.capital > 0.0 && b.capital + CashFlow(t) >= -Product(pct, b.capital) - Slack(t.qty, t.price)
             else CashFlow(t) >= -Slack(t.qty, t.price)
    ensures LongOnly(cfg, Settled(b, t))
  {
    hide Product, SumOf, Put, CashFlow, Slack, OnGrid, WholeLongs;
    var log := b.log + [t];
    PutWhole(b.positions, t.ticker, t.positionAfter);
    SumAppend(b.log, t, CashFlow);
    assert log[..|log| - 1] == b.log;
    forall k | 0 <= k < |log| && log[k].side.Buy?
      ensures CashAfter(cfg.initial, log[..k]) > 0.0
    {
      assert log[..k] == b.log[..k];
      assert b.log[..|b.log|] == b.log;
    }
  }

  /** What an order leaves a settled trade with, when short sales are disabled. */
  lemma PlacedTrade(cfg: Config, b: Book, q: Quote, side: Side, desired: real)
    requires Sensible(cfg) && !cfg.execution.allowShort && q.avgVolume >= 0.0 && DistinctKeys(b.positions) && WholeLongs(b.positions)
    requires ExecuteOrder(cfg.execution, OrderOf(b, q, side, desired)).Filled?
    ensures var t := TradeOf(b, q, side, desired, ExecuteOrder(cfg.execution, OrderOf(b, q, side, desired)));
            t.positionAfter >= 0.0 && OnGrid(t.positionAfter)
  {
    hide ExecuteOrder, FillQty, FillPrice, Affordable, Permitted, VolumeFilled, VolumeCap, OnGrid, Round6, Round4,
         CommissionOn, WholeLongs, Held;
    var o := OrderOf(b, q, side, desired);
    HeldWhole(b.positions, q.ticker);
    CapNotNegative(cfg.execution.slippage, q.avgVolume);
    FilledOrder(cfg.execution, o);
    RoundedNotNegative(FillQty(cfg.execution, o));
    RoundedOnGrid(FillQty(cfg.execution, o));
    GridClosed(o.position, ExecuteOrder(cfg.execution, o).qty);
    if side.Sell? {
      SellWithinPosition(cfg.execution, o);
    }
  }

  lemma PlacedCash(cfg: Config, b: Book, q: Quote, side: Side, desired: real)
    requires Sensible(cfg)
    requires ExecuteOrder(cfg.execution, OrderOf(b, q, side, desired)).Filled?
    ensures var t := TradeOf(b, q, side, desired, ExecuteOrder(cfg.execution, OrderOf(b, q, side, desired)));
            var pct := cfg.execution.commission.maxPctOfNotional;
            if side.Buy? then b.capital > 0.0 && b.capital + CashFlow(t) >= -Product(pct, b.capital) - Slack(t.qty, t.price)
            else CashFlow(t) >= -Slack(t.qty, t.price)
  {
    hide ExecuteOrder, Held, Slack, Usable;
    var o := OrderOf(b, q, side, desired);
    if side.Buy? {
      BuyNeedsCash(cfg.execution, o);
      BuyLeavesCash(cfg.execution, o);
    } else {
      SellPaysCommission(cfg.execution, o);
    }
  }

  lemma PlacedLong(cfg: Config, b: Book, q: Quote, side: Side, desired: real)
    requires Sensible(cfg) && !cfg.execution.allowShort && q.avgVolume >= 0.0 && LongOnly(cfg, b)
    ensures LongOnly(cfg, Placed(cfg, b, q, side, desired))
  {
    hide ExecuteOrder, Settled, WholeLongs, Funded, CashFloor, CashAfter, CashFlow, OnGrid, Slack, Held;
    var fill := ExecuteOrder(cfg.execution, OrderOf(b, q, side, desired));
    if fill.Filled? {
      PlacedTrade(cfg, b, q, side, desired);
      PlacedCash(cfg, b, q, side, desired);
      SettledLong(cfg, b, TradeOf(b, q, side, desired, fill));
    }
  }

  lemma {:induction false} NoBorrow(cfg: Config, panel: Panel, m: Positions, bar: nat)
    requires WholeLongs(m)
    ensures Portfolios.Total(m, BorrowAt(cfg, panel, bar)) == 0.0
  {
    hide OnGrid;
    if m != [] {
      NoBorrow(cfg, panel, m[1..], bar);
    }
  }

  ghost function IsLongOnly(cfg: Config): Book -> bool {
    (b: Book) => LongOnly(cfg, b)
  }

  /** With short sales disabled, at every bar: no position is negative, nothing is owed for borrow, no
      buy was made with cash at zero or below, no fill exceeds its order or its volume cap, and cash is
      no lower than minus the commission cap on the cash before the last buy, up to rounding. */
  lemma RunStaysLong(cfg: Config, panel: Panel, tickers: seq<Ticker>, n: nat, first: nat, bar: nat)
    requires 1 <= cfg.execution.delayBars <= first
    requires Sensible(cfg) && !cfg.execution.allowShort && VolumesNotNegative(panel)
    ensures LongOnly(cfg, RunTo(cfg, panel, tickers, n, first, bar))
    ensures WithinLimits(cfg, panel, RunTo(cfg, panel, tickers, n, first, bar).log)
  {
    hide Placed, RunTo, WholeLongs, Funded, CashFloor, CashAfter, VolumesNotNegative, Sensible, VolumeFor, WithinLimits;
    var inv := IsLongOnly(cfg);
    forall b, q, side, desired | inv(b) && Quoted(cfg, panel, q)
      ensures inv(Placed(cfg, b, q, side, desired))
    {
      PlacedLong(cfg, b, q, side, desired);
    }
    forall b, at: nat | inv(b)
      ensures inv(Accrued(cfg, panel, b, at))
    {
      NoBorrow(cfg, panel, b.positions, at);
    }
    OpeningLong(cfg);
    RunKeeps(cfg, panel, inv, tickers, n, first, bar);
    assert cfg.execution.slippage.participationLimit >= 0.0 by { SensibleLimit(cfg); }
    RunStaysWithinLimits(cfg, panel, tickers, n, first, bar);
  }

  lemma SensibleLimit(cfg: Config)
    requires Sensible(cfg)
    ensures cfg.execution.slippage.participationLimit >= 0.0
  {
  }

  lemma OpeningLong(cfg: Config)
    requires Sensible(cfg)
    ensures LongOnly(cfg, Opening(cfg.initial))
  {
  }

  // ----- No look-ahead

  /** Two panels with the same tickers that agree on bars 0..t. */
  ghost predicate AgreeUpTo(a: Panel, b: Panel, t: nat) {
    && a.Keys == b.Keys
    && forall k :: k in a ==>
         && t < |a[k].close| && t < |b[k].close|
         && a[k].close[..t + 1] == b[k].close[..t + 1]
         && (a[k].volume.Some? <==> b[k].volume.Some?)
         && (a[k].volume.Some? ==> Slice(a[k].volume.value, 0, t + 1) == Slice(b[k].volume.value, 0, t + 1))
  }

  /** The timing contract of `strategy_signals`: element t depends only on the closes up to t. */
  ghost predicate Causal(signal: (seq<real>, nat) -> real) {
    forall x, y, t: nat :: t < |x| && t < |y| && x[..t + 1] == y[..t + 1] ==> signal(x, t) == signal(y, t)
  }

  /** A slice that ends within a prefix is a slice of the prefix. */
  lemma SliceOfPrefix<T>(x: seq<T>, t: nat, lo: nat, hi: nat)
    requires hi <= t + 1
    ensures Slice(x, lo, hi) == Slice(Slice(x, 0, t + 1), lo, hi)
  {
    if t + 1 > |x| {
      assert Slice(x, 0, t + 1) == x;
    } else if lo < hi {
      assert Slice(x, 0, t + 1) == x[..t + 1];
      assert x[..t + 1][lo..hi] == x[lo..hi];
    }
  }

  lemma PrefixSlice<T>(x: seq<T>, y: seq<T>, t: nat, lo: nat, hi: nat)
    requires Slice(x, 0, t + 1) == Slice(y, 0, t + 1) && hi <= t + 1
    ensures Slice(x, lo, hi) == Slice(y, lo, hi)
  {
    hide Slice;
    SliceOfPrefix(x, t, lo, hi);
    SliceOfPrefix(y, t, lo, hi);
  }

  lemma SameClose(a: Panel, b: Panel, t: nat, k: Ticker, bar: nat)
    requires AgreeUpTo(a, b, t) && bar <= t && k in a
    ensures HasBar(a, k, bar) && HasBar(b, k, bar) && a[k].close[bar] == b[k].close[bar]
  {
    assert a[k].close[bar] == a[k].close[..t + 1][bar] && b[k].close[bar] == b[k].close[..t + 1][bar];
  }

  lemma SameLiquidity(cfg: Config, a: Panel, b: Panel, t: nat, k: Ticker, bar: nat)
    requires AgreeUpTo(a, b, t) && bar <= t && k in a
    ensures Liquidity(cfg, a[k], bar) == Liquidity(cfg, b[k], bar)
  {
    hide Mean, Slice, EventBacktest.SimpleReturns;
    forall i: nat | i <= bar
      ensures a[k].close[i] == b[k].close[i]
    {
      SameClose(a, b, t, k, i);
    }
    assert a[k].close[WindowStart(bar)..bar + 1] == b[k].close[WindowStart(bar)..bar + 1];
    if a[k].volume.Some? {
      PrefixSlice(a[k].volume.value, b[k].volume.value, t, WindowStart(bar), bar + 1);
    }
  }

  lemma SameSignal(cfg: Config, a: Panel, n: nat, b: Panel, m: nat, t: nat, k: Ticker, bar: nat)
    requires Causal(cfg.signal) && AgreeUpTo(a, b, t) && bar <= t && t < n && t < m && k in a
    ensures SignalAt(cfg, a[k], n, bar) == SignalAt(cfg, b[k], m, bar)
  {
    var x, y := Slice(a[k].close, 0, n), Slice(b[k].close, 0, m);
    assert x[..bar + 1] == a[k].close[..t + 1][..bar + 1];
    assert y[..bar + 1] == b[k].close[..t + 1][..bar + 1];
  }

  lemma SameQuote(cfg: Config, a: Panel, n: nat, b: Panel, m: nat, t: nat, k: Ticker, bar: nat, decision: nat,
          equity: real, assets: nat)
    requires Causal(cfg.signal) && AgreeUpTo(a, b, t) && decision <= bar <= t && t < n && t < m && k in a
    ensures HasBar(a, k, bar) && HasBar(b, k, bar)
    ensures QuoteFor(cfg, a, n, bar, decision, equity, assets, k) == QuoteFor(cfg, b, m, bar, decision, equity, assets, k)
  {
    hide Causal, AgreeUpTo, Liquidity, SignalAt, Shares;
    SameClose(a, b, t, k, bar);
    SameClose(a, b, t, k, decision);
    SameLiquidity(cfg, a, b, t, k, decision);
    SameSignal(cfg, a, n, b, m, t, k, decision);
  }

  lemma {:induction false} SameChosen(cfg: Config, a: Panel, n: nat, b: Panel, m: nat, t: nat, book: Book, bar: nat,
          decision: nat,
                                      tickers: seq<Ticker>, exits: bool)
    requires Causal(cfg.signal) && AgreeUpTo(a, b, t) && decision <= bar <= t && t < n && t < m
    ensures Chosen(cfg, a, n, book, bar, decision, tickers, exits) == Chosen(cfg, b, m, book, bar, decision, tickers, exits)
  {
    hide Causal, SignalAt;
    if tickers != [] {
      var front, k := tickers[..|tickers| - 1], tickers[|tickers| - 1];
      SameChosen(cfg, a, n, b, m, t, book, bar, decision, front, exits);
      if k in a {
        SameSignal(cfg, a, n, b, m, t, k, decision);
      }
    }
  }

  lemma {:induction false} SameActed(cfg: Config, a: Panel, n: nat, b: Panel, m: nat, t: nat, book: Book, bar: nat,
          decision: nat,
                                     equity: real, assets: nat, queue: seq<Ticker>)
    requires Causal(cfg.signal) && AgreeUpTo(a, b, t) && decision <= bar <= t && t < n && t < m
    requires forall i :: 0 <= i < |queue| ==> HasBar(a, queue[i], bar) && HasBar(b, queue[i], bar)
    ensures ActedAll(cfg, a, n, book, bar, decision, equity, assets, queue)
         == ActedAll(cfg, b, m, book, bar, decision, equity, assets, queue)
  {
    hide Causal, AgreeUpTo, QuoteFor, Acted;
    if queue != [] {
      var front, k := queue[..|queue| - 1], queue[|queue| - 1];
      assert HasBar(a, k, bar);
      SameActed(cfg, a, n, b, m, t, book, bar, decision, equity, assets, front);
      SameQuote(cfg, a, n, b, m, t, k, bar, decision, equity, assets);
    }
  }

  lemma SameValue(a: Panel, b: Panel, t: nat, m: Positions, bar: nat)
    requires AgreeUpTo(a, b, t) && bar <= t
    ensures Portfolios.Total(m, ValueAt(a, bar)) == Portfolios.Total(m, ValueAt(b, bar))
  {
    forall i | 0 <= i < |m|
      ensures ValueAt(a, bar)(m[i].key, m[i].value) == ValueAt(b, bar)(m[i].key, m[i].value)
    {
      if m[i].key in a {
        SameClose(a, b, t, m[i].key, bar);
      }
    }
    Portfolios.TotalSame(m, ValueAt(a, bar), ValueAt(b, bar));
  }

  lemma SameBorrow(cfg: Config, a: Panel, b: Panel, t: nat, m: Positions, bar: nat)
    requires AgreeUpTo(a, b, t) && bar <= t
    ensures Portfolios.Total(m, BorrowAt(cfg, a, bar)) == Portfolios.Total(m, BorrowAt(cfg, b, bar))
  {
    hide DailyBorrow;
    forall i | 0 <= i < |m|
      ensures BorrowOn(cfg, a, bar, m[i].key, m[i].value) == BorrowOn(cfg, b, bar, m[i].key, m[i].value)
    {
      if m[i].key in a {
        SameClose(a, b, t, m[i].key, bar);
      }
    }
    Portfolios.TotalSame(m, BorrowAt(cfg, a, bar), BorrowAt(cfg, b, bar));
  }

  lemma SameTrades(cfg: Config, a: Panel, n: nat, b: Panel, m: nat, t: nat, tickers: seq<Ticker>, book: Book,
          bar: nat, decision: nat)
    requires Causal(cfg.signal) && AgreeUpTo(a, b, t) && decision <= bar <= t && t < n && t < m
    ensures TradedOn(cfg, a, tickers, n, book, bar, decision) == TradedOn(cfg, b, tickers, m, book, bar, decision)
  {
    hide Causal, AgreeUpTo, Chosen, ActedAll, ValueAt;
    SameValue(a, b, t, book.positions, decision);
    SameChosen(cfg, a, n, b, m, t, book, bar, decision, tickers, true);
    SameChosen(cfg, a, n, b, m, t, book, bar, decision, tickers, false);
    SameActed(cfg, a, n, b, m, t, book, bar, decision, Equity(a, book, decision), |tickers|,
              Chosen(cfg, a, n, book, bar, decision, tickers, true) + Chosen(cfg, a, n, book, bar, decision, tickers, false));
  }

  lemma SameBar(cfg: Config, a: Panel, n: nat, b: Panel, m: nat, t: nat, tickers: seq<Ticker>, book: Book, bar: nat,
          decision: nat)
    requires Causal(cfg.signal) && AgreeUpTo(a, b, t) && decision <= bar <= t && t < n && t < m
    ensures AfterBar(cfg, a, tickers, n, book, bar, decision) == AfterBar(cfg, b, tickers, m, book, bar, decision)
  {
    hide Causal, AgreeUpTo, TradedOn, ValueAt, BorrowAt, Portfolios.Total;
    SameTrades(cfg, a, n, b, m, t, tickers, book, bar, decision);
    var traded := TradedOn(cfg, a, tickers, n, book, bar, decision);
    SameBorrow(cfg, a, b, t, traded.positions, bar);
    SameValue(a, b, t, traded.positions, bar);
  }

  /** Two panels that agree on bars 0..t give the same trades, cash, positions and equity curves
      through bar t, wherever each panel is cut off later. */
  lemma {:induction false} NoLookAhead(cfg: Config, a: Panel, n: nat, b: Panel, m: nat, t: nat, tickers: seq<Ticker>,
          first: nat, bar: nat)
    requires 1 <= cfg.execution.delayBars <= first
    requires Causal(cfg.signal) && AgreeUpTo(a, b, t) && t < n && t < m && bar <= t + 1
    ensures RunTo(cfg, a, tickers, n, first, bar) == RunTo(cfg, b, tickers, m, first, bar)
  {
    hide Causal, AgreeUpTo, TradedOn, AfterBar, Opening;
    if bar > first {
      NoLookAhead(cfg, a, n, b, m, t, tickers, first, bar - 1);
      var book, decision := RunTo(cfg, a, tickers, n, first, bar - 1), bar - 1 - cfg.execution.delayBars;
      SameBar(cfg, a, n, b, m, t, tickers, book, bar - 1, decision);
    }
  }

  /** The moving-average series as this engine reads it. */
  function CrossoverSignal(fast: nat, slow: nat): (seq<real>, nat) -> real
    requires fast > 0 && slow > 0
  {
    (close: seq<real>, t: nat) => if t < |close| then EventBacktest.CrossoverSeries(close, fast, slow)[t] as real else 0.0
  }

  lemma CrossoverSignalCausal(fast: nat, slow: nat)
    requires fast > 0 && slow > 0
    ensures Causal(CrossoverSignal(fast, slow))
  {
    hide EventBacktest.CrossoverSeries;
    forall x, y, t: nat | t < |x| && t < |y| && x[..t + 1] == y[..t + 1]
      ensures CrossoverSignal(fast, slow)(x, t) == CrossoverSignal(fast, slow)(y, t)
    {
      EventBacktest.SeriesCausal(x, y, fast, slow, t);
    }
  }
}

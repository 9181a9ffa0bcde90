/**
 From signals to fills in the event-driven backtester: which signals become orders and of what
 value, which orders fill and at what price and cost, bar after bar.
 */
module EventOrders {
  import opened Wrappers
  import opened OrderedMaps
  import opened Portfolios
  import opened EventBacktest
  import opened Reals

  // ----- What a signal is worth

  /** The return into the close at `i + 1`. */
  function ReturnInto(h: seq<real>, i: nat): real
    requires i + 1 < |h|
  {
    (h[i + 1] - h[i]) / Max(h[i], 0.000000001)
  }

  /** The last `count` returns. */
  function LastReturns(h: seq<real>, count: nat): seq<real>
    requires count < |h|
  {
    seq(count, i requires 0 <= i < count => ReturnInto(h, |h| - 1 - count + i))
  }

  /** The signed value of the shares a signal asks for: the fraction of the equity times the strength,
      or the volatility target, at most five times the equity and a quarter of it, when there are
      enough returns and they vary. */
  function Worth(s: Sizer, signal: Signal, equity: real, h: seq<real>): real {
    match s
    case FixedFractional(fraction) => signal.direction as real * (equity * fraction * Abs(signal.strength))
    case VolatilityTarget(target, lookback, assetVol) =>
      if |h| <= lookback || |h| == 2 then 0.0
      else
        var vol := assetVol(LastReturns(h, lookback));
        if vol < 0.000000001 then 0.0
        else signal.direction as real * Min(equity * Min(target / vol, 5.0), equity / 4.0)
  }

  lemma {:induction false} ReturnsAt(h: seq<real>, i: nat)
    requires i < |SimpleReturns(h)|
    ensures i + 1 < |h| && SimpleReturns(h)[i] == ReturnInto(h, i)
  {
    hide ReturnInto;
    if i < |h| - 2 {
      ReturnsAt(h[..|h| - 1], i);
      assert ReturnInto(h[..|h| - 1], i) == ReturnInto(h, i) by { SameReturn(h, i); }
    } else {
      LastIs(h);
    }
  }

  lemma SameReturn(h: seq<real>, i: nat)
    requires i + 2 < |h|
    ensures ReturnInto(h[..|h| - 1], i) == ReturnInto(h, i)
  {
  }

  lemma LastIs(h: seq<real>)
    requires |h| > 1
    ensures SimpleReturns(h)[|h| - 2] == ReturnInto(h, |h| - 2)
  {
  }

  lemma LastReturnsAre(h: seq<real>, count: nat)
    requires count < |h|
    ensures SimpleReturns(h)[|h| - 1 - count..] == LastReturns(h, count)
  {
    hide ReturnInto, SimpleReturns;
    var last := SimpleReturns(h)[|h| - 1 - count..];
    forall i | 0 <= i < count
      ensures last[i] == LastReturns(h, count)[i]
    {
      ReturnsAt(h, |h| - 1 - count + i);
    }
  }

  /** Both sizers, with the price multiplied out. */
  lemma SizeIsWorth(s: Sizer, signal: Signal, price: real, equity: real, h: seq<real>)
    requires price > 0.0 && (s.VolatilityTarget? ==> s.lookback > 0)
    ensures Size(s, signal, price, equity, h) * price == Worth(s, signal, equity, h)
  {
    hide SimpleReturns, LastReturns, TargetValue, Size, Worth;
    match s
    case FixedFractional(fraction) =>
      FixedSize(s, signal, price, equity, h);
      TimesPrice(Worth(s, signal, equity, h), price);
    case VolatilityTarget(target, lookback, assetVol) =>
      TargetSize(s, signal, price, equity, h);
      TimesPrice(Worth(s, signal, equity, h), price);
  }

  lemma FixedSize(s: Sizer, signal: Signal, price: real, equity: real, h: seq<real>)
    requires price > 0.0 && s.FixedFractional?
    ensures Size(s, signal, price, equity, h) == Worth(s, signal, equity, h) / price
  {
  }

  lemma TargetSize(s: Sizer, signal: Signal, price: real, equity: real, h: seq<real>)
    requires price > 0.0 && s.VolatilityTarget? && s.lookback > 0
    ensures Size(s, signal, price, equity, h) == Worth(s, signal, equity, h) / price
  {
    hide SimpleReturns, LastReturns, TargetValue;
    if s.lookback < |h| && |h| != 2 {
      LastReturnsAre(h, s.lookback);
      var vol := s.assetVol(LastReturns(h, s.lookback));
      if vol >= 0.000000001 {
        TargetIs(equity, s.targetVol, vol);
      }
    }
  }

  lemma TimesPrice(x: real, price: real)
    requires price > 0.0
    ensures x / price * price == x
  {
  }

  lemma TargetIs(equity: real, target: real, vol: real)
    requires vol > 0.0
    ensures TargetValue(equity, target, vol) == Min(equity * Min(target / vol, 5.0), equity / 4.0)
  {
  }

  // ----- Which signals become orders

  /** The equity orders are sized by. */
  function SizingEquity(initial: real, b: Book): real {
    if b.equity == [] then initial else b.equity[|b.equity| - 1]
  }

  /** The order `o` is what the signal `s` asks for. */
  predicate Answers(cfg: Config, equity: real, bar: nat, prices: Prices, h: History, s: Signal, o: Order) {
    && s.direction != 0 && PriceOf(prices, s.ticker) > 0.0
    && o.timestamp == bar && o.ticker == s.ticker
    && o.qty * PriceOf(prices, s.ticker) == Worth(cfg.sizer, s, equity, Closes(h, s.ticker))
  }

  /** The signal calls for at least a ten-thousandth of a share. */
  predicate Calls(cfg: Config, equity: real, prices: Prices, h: History, s: Signal) {
    && s.direction != 0 && PriceOf(prices, s.ticker) > 0.0
    && Abs(Worth(cfg.sizer, s, equity, Closes(h, s.ticker))) >= 0.0001 * PriceOf(prices, s.ticker)
  }

  /** A signal becomes an order exactly when it calls for one, and then of the value it calls for. */
  lemma StagedExactly(cfg: Config, b: Book, bar: nat, prices: Prices, h: History, s: Signal)
    requires cfg.sizer.VolatilityTarget? ==> cfg.sizer.lookback > 0
    ensures var equity, o := SizingEquity(cfg.initial, b), Staged(cfg, b, bar, prices, h, s);
            && (o.Some? <==> Calls(cfg, equity, prices, h, s))
            && (o.Some? ==> Answers(cfg, equity, bar, prices, h, s, o.value))
  {
    hide Size, Worth;
    var price, equity := PriceOf(prices, s.ticker), SizingEquity(cfg.initial, b);
    if s.direction == 0 {
      FlatSignalNeverTrades(cfg, b, bar, prices, h, s);
    } else if price > 0.0 {
      SizeIsWorth(cfg.sizer, s, price, equity, Closes(h, s.ticker));
      Threshold(Size(cfg.sizer, s, price, equity, Closes(h, s.ticker)), price);
    }
  }

  lemma Threshold(q: real, price: real)
    requires price > 0.0
    ensures Abs(q) < 0.0001 <==> Abs(q * price) < 0.0001 * price
  {
    hide Abs;
    AbsTimes(q, price);
    var size := Abs(q);
    assert size >= 0.0 by { AbsNotNegative(q); }
    Compared(size, price);
  }

  lemma AbsNotNegative(q: real)
    ensures Abs(q) >= 0.0
  {
  }

  lemma AbsTimes(q: real, price: real)
    requires price > 0.0
    ensures Abs(q * price) == Abs(q) * price
  {
    if q < 0.0 {
      var m := -q;
      Positive(m, price);
      assert q * price == -m * price == -(m * price);
    } else {
      NotNegative(q, price);
    }
  }

  lemma Compared(q: real, price: real)
    requires price > 0.0 && q >= 0.0
    ensures q * price >= 0.0
    ensures q < 0.0001 <==> q * price < 0.0001 * price
  {
    NotNegative(q, price);
    if q < 0.0001 {
      Positive(0.0001 - q, price);
    } else {
      Scaled(0.0001, q, price);
    }
  }

  /** `from` picks, in order, what `staged` has been made from. */
  predicate Picks(from: seq<nat>, n: nat) {
    && (forall k :: 0 <= k < |from| ==> from[k] < n)
    && (forall j, k :: 0 <= j < k < |from| ==> from[j] < from[k])
  }

  /** The orders a bar stages: exactly the signals that call for one, in their order. */
  lemma {:induction false} AllStagedExactly(cfg: Config, b: Book, bar: nat, prices: Prices, h: History,
          signals: seq<Signal>) returns (from: seq<nat>)
    requires cfg.sizer.VolatilityTarget? ==> cfg.sizer.lookback > 0
    ensures var equity, staged := SizingEquity(cfg.initial, b), AllStaged(cfg, b, bar, prices, h, signals);
            && |from| == |staged| && Picks(from, |signals|)
            && (forall k :: 0 <= k < |from| ==> Answers(cfg, equity, bar, prices, h, signals[from[k]], staged[k]))
            && (forall i :: 0 <= i < |signals| ==> (i in from <==> Calls(cfg, equity, prices, h, signals[i])))
  {
    hide Staged, Answers, Calls;
    from := [];
    if signals != [] {
      var n := |signals| - 1;
      from := AllStagedExactly(cfg, b, bar, prices, h, signals[..n]);
      StagedExactly(cfg, b, bar, prices, h, signals[n]);
      if Staged(cfg, b, bar, prices, h, signals[n]).Some? {
        from := from + [n];
      }
    }
  }

  // ----- Which signals a bar has

  /** The signals between two cuts are the strategy's answer for ticker `j`. */
  predicate AnswerAt(cfg: Config, panel: Panel, bar: nat, h: History, signals: seq<Signal>, cuts: seq<nat>,
                     counters: seq<int>, j: nat)
    requires j < |cfg.tickers| && j + 1 < |cuts| && j + 1 < |counters|
  {
    && cuts[j] <= cuts[j + 1] <= |signals|
    && cfg.decide(panel, counters[j], bar, cfg.tickers[j], h) == (signals[cuts[j]..cuts[j + 1]], counters[j + 1])
  }

  /** A bar's signals are the strategy's answers to every listed ticker in turn, each asked with the
      counter the one before it left. */
  lemma {:induction false} SignalsInTurn(cfg: Config, panel: Panel, counter: int, bar: nat, n: nat, h: History)
    returns (cuts: seq<nat>, counters: seq<int>)
    requires n <= |cfg.tickers|
    ensures |cuts| == |counters| == n + 1 && cuts[0] == 0 && counters[0] == counter
    ensures cuts[n] == |AllSignals(cfg, panel, counter, bar, n, h).0|
    ensures counters[n] == AllSignals(cfg, panel, counter, bar, n, h).1
    ensures forall j :: 0 <= j < n ==>
              AnswerAt(cfg, panel, bar, h, AllSignals(cfg, panel, counter, bar, n, h).0, cuts, counters, j)
  {
    if n == 0 {
      cuts, counters := [0], [counter];
    } else {
      var cuts', counters' := SignalsInTurn(cfg, panel, counter, bar, n - 1, h);
      var (before, c) := AllSignals(cfg, panel, counter, bar, n - 1, h);
      var (more, last) := cfg.decide(panel, c, bar, cfg.tickers[n - 1], h);
      cuts, counters := cuts' + [|before| + |more|], counters' + [last];
      forall j | 0 <= j < n
        ensures AnswerAt(cfg, panel, bar, h, before + more, cuts, counters, j)
      {
        if j < n - 1 {
          assert AnswerAt(cfg, panel, bar, h, before, cuts', counters', j);
          assert (before + more)[cuts[j]..cuts[j + 1]] == before[cuts[j]..cuts[j + 1]];
        } else {
          assert (before + more)[|before|..|before| + |more|] == more;
        }
      }
    }
  }

  // ----- Over a whole simulation

  lemma {:induction false} EquityKept(cfg: Config, b: Book, prices: Prices, h: History, orders: seq<Order>)
    ensures AfterOrders(cfg, b, prices, h, orders).equity == b.equity
    decreases orders
  {
    hide FillFor, AfterFill;
    if orders != [] {
      var fill := FillFor(cfg, b, prices, h, orders[0]);
      if fill.Some? {
        AfterPositions(b, fill.value);
      }
      EquityKept(cfg, AfterOrder(cfg, b, prices, h, orders[0]), prices, h, orders[1..]);
    }
  }

  /** In every simulation the orders pending after a bar are those its signals call for, sized by the
      equity recorded at the bar before and priced at the bar's close. */
  lemma PendingExactly(cfg: Config, panel: Panel, n: nat, bar: nat) returns (from: seq<nat>)
    requires Aligned(cfg, panel, n) && bar < n && (cfg.sizer.VolatilityTarget? ==> cfg.sizer.lookback > 0)
    ensures var s, prices := RunTo(cfg, panel, n, bar), PricesAt(cfg, panel, bar);
            var h, pending := Extended(cfg, s.history, prices), RunTo(cfg, panel, n, bar + 1).pending;
            var signals, equity := AllSignals(cfg, panel, s.counter, bar, |cfg.tickers|, h).0, SizingEquity(cfg.initial, s.book);
            && |from| == |pending| && Picks(from, |signals|)
            && (forall k :: 0 <= k < |from| ==> Answers(cfg, equity, bar, prices, h, signals[from[k]], pending[k]))
            && (forall i :: 0 <= i < |signals| ==> (i in from <==> Calls(cfg, equity, prices, h, signals[i])))
  {
    hide Step, AllSignals, AllStaged, PricesAt, Extended, Answers, Calls, Picks, Total, SizingEquity;
    var s, prices := RunTo(cfg, panel, n, bar), PricesAt(cfg, panel, bar);
    var h := Extended(cfg, s.history, prices);
    var filled := StepStages(cfg, s, panel, bar);
    from := AllStagedExactly(cfg, filled, bar, prices, h, AllSignals(cfg, panel, s.counter, bar, |cfg.tickers|, h).0);
    assert RunTo(cfg, panel, n, bar + 1) == Step(cfg, s, panel, bar);
  }

  /** What a step leaves pending, and that filling orders does not touch the recorded equity. */
  lemma StepStages(cfg: Config, s: Sim, panel: Panel, bar: nat) returns (filled: Book)
    requires forall i :: 0 <= i < |cfg.tickers| ==> cfg.tickers[i] in panel && bar < |panel[cfg.tickers[i]]|
    requires bar > 0 || s.pending == []
    ensures SizingEquity(cfg.initial, filled) == SizingEquity(cfg.initial, s.book)
    ensures var prices := PricesAt(cfg, panel, bar);
            var h := Extended(cfg, s.history, prices);
            Step(cfg, s, panel, bar).pending ==
              AllStaged(cfg, filled, bar, prices, h, AllSignals(cfg, panel, s.counter, bar, |cfg.tickers|, h).0)
  {
    hide AllSignals, AllStaged, AfterOrders, AfterMark, PricesAt, Extended, Total;
    var prices := PricesAt(cfg, panel, bar);
    var accrued := AfterBorrow(s.book, prices, cfg.cost.borrowRate);
    filled := if bar > 0 then AfterOrders(cfg, accrued, prices, s.history, s.pending) else accrued;
    EquityKept(cfg, accrued, prices, s.history, s.pending);
    var h := Extended(cfg, s.history, prices);
    NothingPending(AllStaged(cfg, filled, bar, prices, h, AllSignals(cfg, panel, s.counter, bar, |cfg.tickers|, h).0));
  }

  lemma NothingPending(orders: seq<Order>)
    ensures [] + orders == orders
  {
  }

  // ----- Which orders fill, and how

  /** What an order may trade: all of it, or just the position where a sell would go short and may not. */
  function Allowed(cfg: Config, held: real, qty: real): real {
    if qty < 0.0 && held + qty < 0.0 && !cfg.allowShort then -held else qty
  }

  /** The value of a position, long or short. */
  function SizeAt(prices: Prices): (Ticker, real) -> real {
    (t, q) => if q < 0.0 then -q * PriceOf(prices, t) else q * PriceOf(prices, t)
  }

  /** The gross exposure with the position of one ticker replaced. */
  function GrossWith(m: Positions, prices: Prices, ticker: Ticker, q: real): real {
    Total(Put(m, ticker, q), SizeAt(prices))
  }

  lemma GrossIs(m: Positions, prices: Prices)
    ensures Gross(m, prices) == Total(m, SizeAt(prices))
  {
    TotalSame(m, GrossOf(prices), SizeAt(prices));
  }

  /** An order fills exactly when it has a positive price, the exposure it asks for is within the leverage
      limit, and it may trade more than a millionth of a share; and then what it may trade. */
  lemma FillsExactly(cfg: Config, b: Book, prices: Prices, h: History, o: Order)
    requires DistinctKeys(b.positions) && b.equity != []
    ensures var price, held, f := PriceOf(prices, o.ticker), Held(b.positions, o.ticker), FillFor(cfg, b, prices, h, o);
            var base := Max(b.equity[|b.equity| - 1], 0.000000001);
            && (f.Some? <==>
                  && price > 0.0
                  && GrossWith(b.positions, prices, o.ticker, held + o.qty) <= (cfg.leverageLimit + 0.000000001) * base
                  && Abs(Allowed(cfg, held, o.qty)) > 0.000001)
            && (f.Some? ==> f.value.timestamp == o.timestamp && f.value.ticker == o.ticker
                            && f.value.qty == Allowed(cfg, held, o.qty))
  {
    hide ComputeFill, Projected, Gross, Put, DailyVol;
    var price, held := PriceOf(prices, o.ticker), Held(b.positions, o.ticker);
    ProjectedIsGross(b.positions, prices, o.ticker, o.qty);
    GrossIs(Put(b.positions, o.ticker, held + o.qty), prices);
    RatioExactly(Projected(b.positions, prices, o.ticker, o.qty), EquityBase(b), cfg.leverageLimit + 0.000000001);
    FillQty(cfg.cost, o, price, DailyVol(cfg, Closes(h, o.ticker)));
    FillQty(cfg.cost, o.(qty := -held), price, DailyVol(cfg, Closes(h, o.ticker)));
    FillTime(cfg.cost, o, price, DailyVol(cfg, Closes(h, o.ticker)));
    FillTime(cfg.cost, o.(qty := -held), price, DailyVol(cfg, Closes(h, o.ticker)));
  }

  lemma FillTime(c: CostModel, o: Order, open: real, vol: real)
    ensures ComputeFill(c, o, open, vol).timestamp == o.timestamp
  {
  }

  lemma RatioExactly(gross: real, base: real, limit: real)
    requires base > 0.0
    ensures gross / base <= limit <==> gross <= limit * base
  {
    var r := gross / base;
    assert gross == r * base;
    if r <= limit {
      Scaled(r, limit, base);
    } else {
      Positive(r - limit, base);
    }
  }

  /** The volatility an order's impact goes by. */
  function ImpactVol(cfg: Config, h: seq<real>): real {
    if |h| < 12 then 0.01 else Max(cfg.volatility(h[|h| - 12..]), 0.000001)
  }

  /** A buy pays, and a sell gives up, the spread in basis points of the open and the impact in basis points
      for every percent of volatility. */
  lemma FilledPrice(cfg: Config, b: Book, prices: Prices, h: History, o: Order)
    requires FillFor(cfg, b, prices, h, o).Some?
    ensures var f, open := FillFor(cfg, b, prices, h, o).value, PriceOf(prices, o.ticker);
            var points := cfg.cost.spreadBps + cfg.cost.impactBps * 100.0 * ImpactVol(cfg, Closes(h, o.ticker));
            && (f.qty > 0.0 ==> 10000.0 * (f.price - open) == open * points)
            && (f.qty < 0.0 ==> 10000.0 * (open - f.price) == open * points)
  {
    hide OverLeverage, DailyVol, ImpactVol, PriceMove;
    var open, vol := PriceOf(prices, o.ticker), DailyVol(cfg, Closes(h, o.ticker));
    assert vol == ImpactVol(cfg, Closes(h, o.ticker)) by { ImpactIs(cfg, Closes(h, o.ticker)); }
    MoveInPoints(cfg.cost, open, vol);
  }

  lemma ImpactIs(cfg: Config, h: seq<real>)
    ensures DailyVol(cfg, h) == ImpactVol(cfg, h)
  {
  }

  lemma MoveInPoints(c: CostModel, open: real, vol: real)
    ensures 10000.0 * PriceMove(c, open, vol) == open * (c.spreadBps + c.impactBps * 100.0 * vol)
  {
    assert open * (c.impactBps / 10000.0) * (vol / 0.01) * 10000.0 == open * (c.impactBps * 100.0 * vol);
  }

  // ----- The trade log of a simulation

  lemma {:induction false} OneMoreOrder(cfg: Config, b: Book, prices: Prices, h: History, orders: seq<Order>, o: Order)
    ensures AfterOrders(cfg, b, prices, h, orders + [o]) == AfterOrder(cfg, AfterOrders(cfg, b, prices, h, orders), prices, h, o)
    decreases orders
  {
    hide AfterOrder;
    if orders == [] {
      assert [] + [o] == [o];
      NoOrders(cfg, AfterOrder(cfg, b, prices, h, o), prices, h);
    } else {
      var all := orders + [o];
      assert all[0] == orders[0] && all[1..] == orders[1..] + [o];
      OneMoreOrder(cfg, AfterOrder(cfg, b, prices, h, orders[0]), prices, h, orders[1..], o);
    }
  }

  /** The fill of order `i`, asked of the book that the orders before it left. */
  function FillAt(cfg: Config, b: Book, prices: Prices, h: History, orders: seq<Order>, i: nat): Option<Fill>
    requires i < |orders|
  {
    FillFor(cfg, AfterOrders(cfg, b, prices, h, orders[..i]), prices, h, orders[i])
  }

  /** The orders of a bar are asked one after the other, and those that fill are logged in that order. */
  lemma {:induction false} OrdersLogged(cfg: Config, b: Book, prices: Prices, h: History, orders: seq<Order>, n: nat)
    returns (from: seq<nat>)
    requires n <= |orders|
    ensures Picks(from, n)
    ensures forall i :: 0 <= i < n ==> (i in from <==> FillAt(cfg, b, prices, h, orders, i).Some?)
    ensures var log := AfterOrders(cfg, b, prices, h, orders[..n]).log;
            && |log| == |b.log| + |from| && log[..|b.log|] == b.log
            && forall k :: 0 <= k < |from| ==> Some(log[|b.log| + k]) == FillAt(cfg, b, prices, h, orders, from[k])
    decreases n
  {
    hide FillAt, AfterOrders;
    from := [];
    if n == 0 {
      NoOrders(cfg, b, prices, h);
      assert orders[..0] == [];
    } else {
      from := OrdersLogged(cfg, b, prices, h, orders, n - 1);
      OrderLogged(cfg, b, prices, h, orders, n - 1);
      if FillAt(cfg, b, prices, h, orders, n - 1).Some? {
        from := from + [n - 1];
      }
    }
  }

  lemma OrderLogged(cfg: Config, b: Book, prices: Prices, h: History, orders: seq<Order>, i: nat)
    requires i < |orders|
    ensures var fill, log := FillAt(cfg, b, prices, h, orders, i), AfterOrders(cfg, b, prices, h, orders[..i]).log;
            AfterOrders(cfg, b, prices, h, orders[..i + 1]).log == if fill.Some? then log + [fill.value] else log
  {
    hide FillFor, AfterOrders;
    OneMoreOrder(cfg, b, prices, h, orders[..i], orders[i]);
    assert orders[..i] + [orders[i]] == orders[..i + 1];
  }

  /** In every simulation a bar adds to the log the fills of the orders pending before it, in their order. */
  lemma FillsLogged(cfg: Config, panel: Panel, n: nat, bar: nat) returns (from: seq<nat>)
    requires Aligned(cfg, panel, n) && 0 < bar < n
    ensures var s, prices := RunTo(cfg, panel, n, bar), PricesAt(cfg, panel, bar);
            var opening := AfterBorrow(s.book, prices, cfg.cost.borrowRate);
            var log := RunTo(cfg, panel, n, bar + 1).book.log;
            && Picks(from, |s.pending|)
            && (forall i :: 0 <= i < |s.pending| ==>
                  (i in from <==> FillAt(cfg, opening, prices, s.history, s.pending, i).Some?))
            && |log| == |s.book.log| + |from| && log[..|s.book.log|] == s.book.log
            && forall k :: 0 <= k < |from| ==>
                 Some(log[|s.book.log| + k]) == FillAt(cfg, opening, prices, s.history, s.pending, from[k])
  {
    hide FillAt, AllSignals, AllStaged, AfterOrders, PricesAt, Extended, Total, Picks;
    var s, prices := RunTo(cfg, panel, n, bar), PricesAt(cfg, panel, bar);
    from := OrdersLogged(cfg, AfterBorrow(s.book, prices, cfg.cost.borrowRate), prices, s.history, s.pending, |s.pending|);
    assert s.pending[..|s.pending|] == s.pending;
    assert RunTo(cfg, panel, n, bar + 1) == Step(cfg, s, panel, bar);
  }
}

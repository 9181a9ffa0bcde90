/**
 Which orders the bar-by-bar backtester places: every trade of the log is called for by the signal of
 its decision bar and the position before it, and every order a signal calls for is placed.
 */
module BarOrders {
  import opened Wrappers
  import opened OrderedMaps
  import opened ExecutionModel
  import opened BarBacktest
  import opened Reals
  import EventBacktest
  import Portfolios

  // ----- What a bar decides by

  /** The shares of `t` that the trades of a log add up to. */
  function SharesOf(log: seq<Trade>, t: Ticker): real {
    if log == [] then 0.0
    else
      var last := log[|log| - 1];
      SharesOf(log[..|log| - 1], t)
      + if last.ticker != t then 0.0 else if last.side == Buy then last.qty else -last.qty
  }

  /** The run so far: the book at the start of `bar`. */
  datatype Setting = Setting(cfg: Config, panel: Panel, tickers: seq<Ticker>, n: nat, first: nat)

  predicate Proper(s: Setting) {
    1 <= s.cfg.execution.delayBars <= s.first
  }

  function At(s: Setting, bar: nat): Book
    requires Proper(s)
  {
    RunTo(s.cfg, s.panel, s.tickers, s.n, s.first, bar)
  }

  /** A listed ticker that has a price at `bar`, which the run trades on. */
  predicate Tradable(s: Setting, t: Ticker, bar: nat) {
    t in s.tickers && t in s.panel && s.first <= bar < |s.panel[t].close|
  }

  /** The signal at the decision bar of `bar`. */
  function SignalFor(s: Setting, t: Ticker, bar: nat): real
    requires Proper(s) && Tradable(s, t, bar)
  {
    s.cfg.signal(Slice(s.panel[t].close, 0, s.n), bar - s.cfg.execution.delayBars)
  }

  /** The quote of `t` at `bar`: its price there, and what was known at the decision bar. The size goes by
      the equity of the book before the bar's trades, at the prices of the decision bar. */
  function SizeFor(s: Setting, t: Ticker, bar: nat): real
    requires Proper(s) && Tradable(s, t, bar)
  {
    var decision := bar - s.cfg.execution.delayBars;
    Shares(s.cfg.execution.sizer, Equity(s.panel, At(s, bar), decision), s.panel[t].close[bar],
           Liquidity(s.cfg, s.panel[t], decision).0, 0.5, 1.5, |s.tickers|)
  }

  /** A signal calls for this order at a position. Up, out of a short position or none: all of the short
      position is bought back, and the size is bought. Down, out of a long position: all of it is sold,
      and where short sales are allowed and the signal is below -0.5 the size is sold too. */
  predicate CalledFor(allowShort: bool, side: Side, desired: real, signal: real, held: real, size: real) {
    if side == Buy then signal > 0.0 && ((held < 0.0 && desired == -held) || (size > 0.0 && desired == size))
    else
      && signal < 0.0
      && ((held > 0.0 && desired == held) || (allowShort && signal < -0.5 && size > 0.0 && desired == size))
  }

  /** Trade `k` of a log has the signal of its decision bar, and is called for by it and the position
      just before the trade. */
  predicate Justified(s: Setting, log: seq<Trade>, k: nat)
    requires Proper(s) && k < |log|
  {
    var t := log[k];
    && Tradable(s, t.ticker, t.bar)
    && t.signal == SignalFor(s, t.ticker, t.bar)
    && CalledFor(s.cfg.execution.allowShort, t.side, t.desired, t.signal, SharesOf(log[..k], t.ticker),
                 SizeFor(s, t.ticker, t.bar))
  }

  /** Bars do not go back, and at one bar no sale comes after a buy. */
  predicate Sequenced(log: seq<Trade>) {
    forall i, j :: 0 <= i < j < |log| ==>
      log[i].bar <= log[j].bar && (log[i].bar == log[j].bar && log[i].side == Buy ==> log[j].side == Buy)
  }

  predicate Explained(s: Setting, log: seq<Trade>)
    requires Proper(s)
  {
    Sequenced(log) && forall k :: 0 <= k < |log| ==> Justified(s, log, k)
  }

  // ----- One order

  lemma {:induction false} SharesAre(log: seq<Trade>, t: Ticker)
    ensures SharesOf(log, t) == SumOf(log, Moves(t))
  {
    if log != [] {
      SharesAre(log[..|log| - 1], t);
    }
  }

  /** Within a bar: the book's log is explained and explains the book, nothing of it is later than the bar,
      and while only sales are due there has been no buy. */
  ghost predicate Midway(s: Setting, b: Book, bar: nat, selling: bool)
    requires Proper(s)
  {
    && Explained(s, b.log) && Balanced(s.cfg.initial, b)
    && (forall k :: 0 <= k < |b.log| ==> b.log[k].bar <= bar)
    && (selling ==> forall k :: 0 <= k < |b.log| && b.log[k].bar == bar ==> b.log[k].side != Buy)
  }

  lemma Appended(s: Setting, log: seq<Trade>, t: Trade)
    requires Proper(s) && Explained(s, log) && Tradable(s, t.ticker, t.bar)
    requires forall k :: 0 <= k < |log| ==> log[k].bar <= t.bar
    requires t.side != Buy ==> forall k :: 0 <= k < |log| && log[k].bar == t.bar ==> log[k].side != Buy
    requires t.signal == SignalFor(s, t.ticker, t.bar)
    requires CalledFor(s.cfg.execution.allowShort, t.side, t.desired, t.signal, SharesOf(log, t.ticker),
                       SizeFor(s, t.ticker, t.bar))
    ensures Explained(s, log + [t])
  {
    hide SharesOf, CalledFor, SignalFor, SizeFor, Tradable, Proper;
    var all := log + [t];
    forall k | 0 <= k < |all|
      ensures Justified(s, all, k)
    {
      if k < |log| {
        assert all[..k] == log[..k] && Justified(s, log, k);
      } else {
        assert all[..k] == log;
      }
    }
  }

  /** The quote the run gives a ticker. */
  predicate QuotedFor(s: Setting, q: Quote)
    requires Proper(s)
  {
    && Tradable(s, q.ticker, q.bar)
    && q.signal == SignalFor(s, q.ticker, q.bar) && q.size == SizeFor(s, q.ticker, q.bar)
    && q.price == s.panel[q.ticker].close[q.bar]
  }

  lemma PlacedMidway(s: Setting, b: Book, q: Quote, side: Side, desired: real, selling: bool)
    requires Proper(s) && QuotedFor(s, q) && Midway(s, b, q.bar, selling) && (selling <==> side != Buy)
    requires CalledFor(s.cfg.execution.allowShort, side, desired, q.signal, Held(b.positions, q.ticker), q.size)
    ensures Midway(s, Placed(s.cfg, b, q, side, desired), q.bar, selling)
  {
    hide ExecuteOrder, Settled, Balanced, Held, SharesOf, CalledFor, SignalFor, SizeFor, Explained, Tradable;
    var fill := ExecuteOrder(s.cfg.execution, OrderOf(b, q, side, desired));
    PlacedBalanced(s.cfg, b, q, side, desired);
    if fill.Filled? {
      var t := TradeOf(b, q, side, desired, fill);
      assert Settled(b, t).log == b.log + [t] by { SettledLog(b, t); }
      BooksShares(s.cfg.initial, b, q.ticker);
      Appended(s, b.log, t);
    }
  }

  lemma SettledLog(b: Book, t: Trade)
    ensures Settled(b, t).log == b.log + [t]
    ensures Settled(b, t).borrow == b.borrow
  {
  }

  lemma BooksShares(initial: real, b: Book, t: Ticker)
    requires Balanced(initial, b)
    ensures Held(b.positions, t) == SharesOf(b.log, t)
  {
    SharesAre(b.log, t);
  }

  lemma ActedMidway(s: Setting, b: Book, q: Quote, selling: bool)
    requires Proper(s) && QuotedFor(s, q) && Midway(s, b, q.bar, selling)
    requires q.signal != 0.0 && (selling <==> q.signal < 0.0)
    ensures Midway(s, Acted(s.cfg, b, q), q.bar, selling)
  {
    hide Placed, Midway, QuotedFor, Held;
    var held := Held(b.positions, q.ticker);
    if q.signal > 0.0 && held <= 0.0 {
      var covered := if held < 0.0 then Placed(s.cfg, b, q, Buy, Abs(held)) else b;
      if held < 0.0 {
        PlacedMidway(s, b, q, Buy, Abs(held), false);
      }
      if q.size > 0.0 {
        PlacedMidway(s, covered, q, Buy, q.size, false);
      }
    } else if q.signal < 0.0 && held > 0.0 {
      PlacedMidway(s, b, q, Sell, Abs(held), true);
      if s.cfg.execution.allowShort && q.signal < -0.5 && q.size > 0.0 {
        PlacedMidway(s, Placed(s.cfg, b, q, Sell, Abs(held)), q, Sell, q.size, true);
      }
    }
  }

  // ----- One bar

  /** A bar's queue: tradable tickers with a signal, those that go down before those that go up. */
  predicate Queued(s: Setting, queue: seq<Ticker>, bar: nat)
    requires Proper(s)
  {
    && (forall i :: 0 <= i < |queue| ==> Tradable(s, queue[i], bar) && SignalFor(s, queue[i], bar) != 0.0)
    && (forall i, j :: 0 <= i < j < |queue| && SignalFor(s, queue[i], bar) > 0.0 ==> SignalFor(s, queue[j], bar) > 0.0)
  }

  predicate AllDown(s: Setting, queue: seq<Ticker>, bar: nat)
    requires Proper(s) && Queued(s, queue, bar)
  {
    forall i :: 0 <= i < |queue| ==> SignalFor(s, queue[i], bar) < 0.0
  }

  function EquityFor(s: Setting, bar: nat): real
    requires Proper(s) && s.first <= bar
  {
    Equity(s.panel, At(s, bar), bar - s.cfg.execution.delayBars)
  }

  /** The book after the first of a bar's queue have been acted on. */
  function During(s: Setting, bar: nat, queue: seq<Ticker>): Book
    requires Proper(s) && s.first <= bar && forall i :: 0 <= i < |queue| ==> HasBar(s.panel, queue[i], bar)
  {
    ActedAll(s.cfg, s.panel, s.n, At(s, bar), bar, bar - s.cfg.execution.delayBars, EquityFor(s, bar), |s.tickers|, queue)
  }

  lemma QuoteIs(s: Setting, t: Ticker, bar: nat)
    requires Proper(s) && Tradable(s, t, bar)
    ensures HasBar(s.panel, t, bar)
    ensures var q := QuoteFor(s.cfg, s.panel, s.n, bar, bar - s.cfg.execution.delayBars, EquityFor(s, bar), |s.tickers|, t);
            QuotedFor(s, q) && q.ticker == t && q.bar == bar
            && (q.dailyVol, q.avgVolume) == Liquidity(s.cfg, s.panel[t], bar - s.cfg.execution.delayBars)
  {
    hide Liquidity, Shares, Equity, At;
  }

  lemma DuringStep(s: Setting, bar: nat, queue: seq<Ticker>)
    requires Proper(s) && s.first <= bar && queue != []
    requires forall i :: 0 <= i < |queue| ==> HasBar(s.panel, queue[i], bar)
    ensures var front, t := queue[..|queue| - 1], queue[|queue| - 1];
            HasBar(s.panel, t, bar)
            && During(s, bar, queue)
               == Acted(s.cfg, During(s, bar, front),
                        QuoteFor(s.cfg, s.panel, s.n, bar, bar - s.cfg.execution.delayBars, EquityFor(s, bar), |s.tickers|, t))
  {
    hide Acted, QuoteFor, At, EquityFor;
    assert HasBar(s.panel, queue[|queue| - 1], bar);
  }

  lemma {:induction false} DuringMidway(s: Setting, bar: nat, queue: seq<Ticker>)
    requires Proper(s) && s.first <= bar && Queued(s, queue, bar)
    requires Midway(s, At(s, bar), bar, true)
    ensures forall i :: 0 <= i < |queue| ==> HasBar(s.panel, queue[i], bar)
    ensures Midway(s, During(s, bar, queue), bar, AllDown(s, queue, bar))
  {
    hide Midway, Acted, QuoteFor, At, EquityFor, SignalFor, QuotedFor;
    assert forall i :: 0 <= i < |queue| ==> HasBar(s.panel, queue[i], bar);
    if queue != [] {
      var front, t := queue[..|queue| - 1], queue[|queue| - 1];
      assert Queued(s, front, bar);
      assert AllDown(s, queue, bar) <==> SignalFor(s, t, bar) < 0.0;
      assert SignalFor(s, t, bar) < 0.0 ==> AllDown(s, front, bar);
      DuringMidway(s, bar, front);
      LessSelling(s, During(s, bar, front), bar, AllDown(s, front, bar), AllDown(s, queue, bar));
      QuoteIs(s, t, bar);
      DuringStep(s, bar, queue);
      QuoteSignal(s, t, bar);
      ActedMidway(s, During(s, bar, front),
                  QuoteFor(s.cfg, s.panel, s.n, bar, bar - s.cfg.execution.delayBars, EquityFor(s, bar), |s.tickers|, t),
                  AllDown(s, queue, bar));
    } else {
      assert During(s, bar, queue) == At(s, bar);
    }
  }

  lemma QuoteSignal(s: Setting, t: Ticker, bar: nat)
    requires Proper(s) && Tradable(s, t, bar)
    ensures QuoteFor(s.cfg, s.panel, s.n, bar, bar - s.cfg.execution.delayBars, EquityFor(s, bar), |s.tickers|, t).signal
         == SignalFor(s, t, bar)
  {
    hide Liquidity, Shares, EquityFor;
  }

  lemma LessSelling(s: Setting, b: Book, bar: nat, selling: bool, less: bool)
    requires Proper(s) && Midway(s, b, bar, selling) && (less ==> selling)
    ensures Midway(s, b, bar, less)
  {
    hide Explained, Balanced;
  }

  /** The queue of a bar: first the long positions whose signal is down, then the others whose signal is up. */
  function QueueOf(s: Setting, bar: nat): seq<Ticker>
    requires Proper(s) && s.first <= bar
  {
    var decision := bar - s.cfg.execution.delayBars;
    Chosen(s.cfg, s.panel, s.n, At(s, bar), bar, decision, s.tickers, true)
    + Chosen(s.cfg, s.panel, s.n, At(s, bar), bar, decision, s.tickers, false)
  }

  /** Exactly the tradable tickers are chosen that have a long position and a signal down, or none and up. */
  lemma {:induction false} ChosenExactly(s: Setting, b: Book, bar: nat, tickers: seq<Ticker>, exits: bool, t: Ticker)
    requires Proper(s) && s.first <= bar && forall i :: 0 <= i < |tickers| ==> tickers[i] in s.tickers
    ensures t in Chosen(s.cfg, s.panel, s.n, b, bar, bar - s.cfg.execution.delayBars, tickers, exits) <==>
              && t in tickers && Tradable(s, t, bar)
              && (if exits then SignalFor(s, t, bar) < 0.0 && Held(b.positions, t) > 0.0
                  else SignalFor(s, t, bar) > 0.0 && Held(b.positions, t) <= 0.0)
  {
    hide Held;
    if tickers != [] {
      var front, last := tickers[..|tickers| - 1], tickers[|tickers| - 1];
      assert tickers == front + [last];
      ChosenExactly(s, b, bar, front, exits, t);
    }
  }

  lemma QueueExactly(s: Setting, bar: nat)
    requires Proper(s) && s.first <= bar
    ensures Queued(s, QueueOf(s, bar), bar)
    ensures forall t :: t in QueueOf(s, bar) <==>
              && Tradable(s, t, bar)
              && (if Held(At(s, bar).positions, t) > 0.0 then SignalFor(s, t, bar) < 0.0 else SignalFor(s, t, bar) > 0.0)
  {
    hide At, Held, SignalFor, Chosen, Tradable;
    var b, decision := At(s, bar), bar - s.cfg.execution.delayBars;
    var exits := Chosen(s.cfg, s.panel, s.n, b, bar, decision, s.tickers, true);
    var entries := Chosen(s.cfg, s.panel, s.n, b, bar, decision, s.tickers, false);
    forall t
      ensures t in exits <==> t in s.tickers && Tradable(s, t, bar) && SignalFor(s, t, bar) < 0.0 && Held(b.positions, t) > 0.0
      ensures t in entries <==> t in s.tickers && Tradable(s, t, bar) && SignalFor(s, t, bar) > 0.0 && Held(b.positions, t) <= 0.0
    {
      ChosenExactly(s, b, bar, s.tickers, true, t);
      ChosenExactly(s, b, bar, s.tickers, false, t);
    }
    var queue := exits + entries;
    forall i | 0 <= i < |queue|
      ensures Tradable(s, queue[i], bar)
      ensures if i < |exits| then SignalFor(s, queue[i], bar) < 0.0 else SignalFor(s, queue[i], bar) > 0.0
    {
      assert i < |exits| ==> queue[i] in exits;
      assert i >= |exits| ==> queue[i] in entries;
    }
    forall t
      ensures t in queue <==> t in exits || t in entries
    {
    }
    forall t | Tradable(s, t, bar)
      ensures t in s.tickers
    {
      TradableListed(s, t, bar);
    }
  }

  lemma TradableListed(s: Setting, t: Ticker, bar: nat)
    requires Tradable(s, t, bar)
    ensures t in s.tickers
  {
  }

  lemma BarTrades(s: Setting, bar: nat)
    requires Proper(s) && s.first <= bar
    ensures forall i :: 0 <= i < |QueueOf(s, bar)| ==> HasBar(s.panel, QueueOf(s, bar)[i], bar)
    ensures At(s, bar + 1).log == During(s, bar, QueueOf(s, bar)).log
    ensures Balanced(s.cfg.initial, At(s, bar + 1)) && Balanced(s.cfg.initial, At(s, bar))
  {
    hide ActedAll, Chosen, Equity, Balanced, Accrued, Marked;
    RunBalances(s.cfg, s.panel, s.tickers, s.n, s.first, bar);
    RunBalances(s.cfg, s.panel, s.tickers, s.n, s.first, bar + 1);
    EndKeepsLog(s, During(s, bar, QueueOf(s, bar)), bar);
  }

  lemma EndKeepsLog(s: Setting, b: Book, bar: nat)
    ensures Marked(s.panel, Accrued(s.cfg, s.panel, b, bar), bar).log == b.log
  {
    hide Equity, Portfolios.Total;
  }

  // ----- Every trade is called for

  /** At every bar, under any configuration: every logged trade has the signal of its decision bar and is
      what that signal calls for at the position just before it, up for buys and down for sales; and at no
      bar does a sale come after a buy. */
  lemma {:induction false} RunExplained(s: Setting, bar: nat)
    requires Proper(s)
    ensures Explained(s, At(s, bar).log)
    ensures forall k :: 0 <= k < |At(s, bar).log| ==> s.first <= At(s, bar).log[k].bar < bar
  {
    hide Explained, Balanced, At, During, QueueOf, Midway, Queued;
    if bar <= s.first {
      OpeningExplained(s, bar);
    } else {
      RunExplained(s, bar - 1);
      BarTrades(s, bar - 1);
      QueueExactly(s, bar - 1);
      StartsMidway(s, bar - 1);
      DuringMidway(s, bar - 1, QueueOf(s, bar - 1));
      EndsMidway(s, During(s, bar - 1, QueueOf(s, bar - 1)), bar - 1, AllDown(s, QueueOf(s, bar - 1), bar - 1));
    }
  }

  lemma OpeningExplained(s: Setting, bar: nat)
    requires Proper(s) && bar <= s.first
    ensures At(s, bar).log == [] && Explained(s, At(s, bar).log)
  {
  }

  lemma StartsMidway(s: Setting, bar: nat)
    requires Proper(s) && Explained(s, At(s, bar).log) && Balanced(s.cfg.initial, At(s, bar))
    requires forall k :: 0 <= k < |At(s, bar).log| ==> At(s, bar).log[k].bar < bar
    ensures Midway(s, At(s, bar), bar, true)
  {
    hide Explained, Balanced, At;
  }

  lemma EndsMidway(s: Setting, b: Book, bar: nat, selling: bool)
    requires Proper(s) && Midway(s, b, bar, selling)
    ensures Explained(s, b.log)
    ensures forall k :: 0 <= k < |b.log| ==> s.first <= b.log[k].bar < bar + 1
  {
    hide Balanced, Sequenced, CalledFor, SharesOf, SizeFor, SignalFor;
    forall k | 0 <= k < |b.log|
      ensures s.first <= b.log[k].bar
    {
      assert Justified(s, b.log, k);
    }
  }

  // ----- Every order called for is placed

  lemma PlacedLogs(cfg: Config, b: Book, q: Quote, side: Side, desired: real)
    ensures var fill, p := ExecuteOrder(cfg.execution, OrderOf(b, q, side, desired)), Placed(cfg, b, q, side, desired);
            && p.log == (if fill.Filled? then b.log + [TradeOf(b, q, side, desired, fill)] else b.log)
            && p.borrow == b.borrow
  {
    hide ExecuteOrder, CashFlow, Put;
  }

  lemma PlacedKeeps(cfg: Config, b: Book, q: Quote, side: Side, desired: real, t: Ticker)
    requires DistinctKeys(b.positions)
    ensures DistinctKeys(Placed(cfg, b, q, side, desired).positions)
    ensures t != q.ticker ==> Held(Placed(cfg, b, q, side, desired).positions, t) == Held(b.positions, t)
  {
    hide ExecuteOrder, CashFlow, Put;
    var fill := ExecuteOrder(cfg.execution, OrderOf(b, q, side, desired));
    if fill.Filled? {
      FindAfterPut(b.positions, q.ticker, TradeOf(b, q, side, desired, fill).positionAfter, t);
    }
  }

  lemma ActedKeepsOthers(cfg: Config, b: Book, q: Quote, t: Ticker)
    requires DistinctKeys(b.positions)
    ensures var a := Acted(cfg, b, q);
            && DistinctKeys(a.positions) && a.borrow == b.borrow && b.log <= a.log
            && (t != q.ticker ==> Held(a.positions, t) == Held(b.positions, t))
  {
    hide Placed, Held;
    var held := Held(b.positions, q.ticker);
    var one := if q.signal > 0.0 then (if held < 0.0 then Placed(cfg, b, q, Buy, Abs(held)) else b)
               else Placed(cfg, b, q, Sell, Abs(held));
    PlacedKeeps(cfg, b, q, Buy, Abs(held), t);
    PlacedKeeps(cfg, b, q, Sell, Abs(held), t);
    PlacedKeeps(cfg, one, q, Buy, q.size, t);
    PlacedKeeps(cfg, one, q, Sell, q.size, t);
    PlacedLogs(cfg, b, q, Buy, Abs(held));
    PlacedLogs(cfg, b, q, Sell, Abs(held));
    PlacedLogs(cfg, one, q, Buy, q.size);
    PlacedLogs(cfg, one, q, Sell, q.size);
  }

  lemma {:induction false} DuringKeepsOthers(s: Setting, bar: nat, queue: seq<Ticker>, t: Ticker)
    requires Proper(s) && s.first <= bar && forall i :: 0 <= i < |queue| ==> HasBar(s.panel, queue[i], bar)
    requires DistinctKeys(At(s, bar).positions)
    ensures var b := During(s, bar, queue);
            && DistinctKeys(b.positions) && b.borrow == At(s, bar).borrow
            && (t !in queue ==> Held(b.positions, t) == Held(At(s, bar).positions, t))
  {
    hide Acted, QuoteFor, At, EquityFor, Held, During;
    if queue == [] {
      assert During(s, bar, []) == At(s, bar) by { NothingDone(s, bar); }
    } else {
      var front, last := queue[..|queue| - 1], queue[|queue| - 1];
      DuringKeepsOthers(s, bar, front, t);
      DuringStep(s, bar, queue);
      var q := QuoteFor(s.cfg, s.panel, s.n, bar, bar - s.cfg.execution.delayBars, EquityFor(s, bar), |s.tickers|, last);
      assert q.ticker == last by { QuoteTicker(s, bar, last); }
      ActedKeepsOthers(s.cfg, During(s, bar, front), q, t);
    }
  }

  lemma NothingDone(s: Setting, bar: nat)
    requires Proper(s) && s.first <= bar
    ensures During(s, bar, []) == At(s, bar)
  {
  }

  lemma QuoteTicker(s: Setting, bar: nat, t: Ticker)
    requires Proper(s) && s.first <= bar && HasBar(s.panel, t, bar)
    ensures QuoteFor(s.cfg, s.panel, s.n, bar, bar - s.cfg.execution.delayBars, EquityFor(s, bar), |s.tickers|, t).ticker == t
  {
    hide Liquidity, Shares, EquityFor;
  }

  lemma {:induction false} DuringGrows(s: Setting, bar: nat, queue: seq<Ticker>, i: nat)
    requires Proper(s) && s.first <= bar && i <= |queue| && DistinctKeys(At(s, bar).positions)
    requires forall k :: 0 <= k < |queue| ==> HasBar(s.panel, queue[k], bar)
    ensures forall k :: 0 <= k < i ==> HasBar(s.panel, queue[..i][k], bar)
    ensures During(s, bar, queue[..i]).log <= During(s, bar, queue).log
    decreases |queue|
  {
    hide Acted, QuoteFor, At, EquityFor, During;
    if i == |queue| {
      assert queue[..i] == queue;
    } else {
      var front, last := queue[..|queue| - 1], queue[|queue| - 1];
      DuringGrows(s, bar, front, i);
      assert front[..i] == queue[..i];
      DuringStep(s, bar, queue);
      DuringKeepsOthers(s, bar, front, last);
      ActedKeepsOthers(s.cfg, During(s, bar, front),
                       QuoteFor(s.cfg, s.panel, s.n, bar, bar - s.cfg.execution.delayBars, EquityFor(s, bar), |s.tickers|, last), last);
    }
  }

  /** An order of `t` at `bar`, with the cash and the position that the first `k` trades of a log leave. */
  function OrderAt(s: Setting, log: seq<Trade>, k: nat, t: Ticker, bar: nat, side: Side, desired: real): Order
    requires Proper(s) && Tradable(s, t, bar) && k <= |log|
  {
    var (vol, volume) := Liquidity(s.cfg, s.panel[t], bar - s.cfg.execution.delayBars);
    Order(side, desired, s.panel[t].close[bar], vol, volume,
          CashAfter(s.cfg.initial, log[..k]) - At(s, bar).borrow, SharesOf(log[..k], t))
  }

  /** The order is put to the execution model after the first `k` trades, and logged if it fills. */
  predicate PutAt(s: Setting, log: seq<Trade>, k: nat, t: Ticker, bar: nat, side: Side, desired: real)
    requires Proper(s) && Tradable(s, t, bar)
  {
    && |At(s, bar).log| <= k <= |log|
    && var fill := ExecuteOrder(s.cfg.execution, OrderAt(s, log, k, t, bar, side, desired));
       fill.Filled? ==>
         && k < |log| && log[k].bar == bar && log[k].ticker == t && log[k].side == side && log[k].desired == desired
         && log[k].qty == fill.qty && log[k].price == fill.price && log[k].commission == fill.commission
  }

  lemma PutWhere(s: Setting, b: Book, q: Quote, side: Side, desired: real, log: seq<Trade>)
    requires Proper(s) && Tradable(s, q.ticker, q.bar) && Balanced(s.cfg.initial, b) && b.borrow == At(s, q.bar).borrow
    requires q.price == s.panel[q.ticker].close[q.bar]
    requires (q.dailyVol, q.avgVolume) == Liquidity(s.cfg, s.panel[q.ticker], q.bar - s.cfg.execution.delayBars)
    requires At(s, q.bar).log <= b.log && Placed(s.cfg, b, q, side, desired).log <= log
    ensures PutAt(s, log, |b.log|, q.ticker, q.bar, side, desired)
  {
    hide ExecuteOrder, At, Liquidity, SharesOf, Held, Tradable, Placed;
    PlacedLogs(s.cfg, b, q, side, desired);
    BooksShares(s.cfg.initial, b, q.ticker);
    assert b.log <= log && log[..|b.log|] == b.log;
  }

  lemma ActedPuts(s: Setting, b: Book, q: Quote, side: Side, desired: real, log: seq<Trade>) returns (k: nat)
    requires Proper(s) && QuotedFor(s, q) && Balanced(s.cfg.initial, b) && b.borrow == At(s, q.bar).borrow
    requires (q.dailyVol, q.avgVolume) == Liquidity(s.cfg, s.panel[q.ticker], q.bar - s.cfg.execution.delayBars)
    requires At(s, q.bar).log <= b.log && Acted(s.cfg, b, q).log <= log
    requires CalledFor(s.cfg.execution.allowShort, side, desired, q.signal, Held(b.positions, q.ticker), q.size)
    requires side == Buy <==> Held(b.positions, q.ticker) <= 0.0
    ensures PutAt(s, log, k, q.ticker, q.bar, side, desired)
    ensures desired == Abs(Held(b.positions, q.ticker)) ==> k == |b.log|
  {
    hide At, Liquidity, Held, Tradable, Placed, PutAt, Balanced, SignalFor, SizeFor;
    var held := Held(b.positions, q.ticker);
    var first := if side == Buy then (if held < 0.0 then Placed(s.cfg, b, q, Buy, Abs(held)) else b)
                 else Placed(s.cfg, b, q, Sell, Abs(held));
    PlacedLogs(s.cfg, b, q, side, Abs(held));
    PlacedBalanced(s.cfg, b, q, side, Abs(held));
    PlacedLogs(s.cfg, first, q, side, q.size);
    assert first.log <= Acted(s.cfg, b, q).log;
    if desired == Abs(held) {
      assert Placed(s.cfg, b, q, side, desired).log <= log by { assert Placed(s.cfg, b, q, side, desired).log <= Acted(s.cfg, b, q).log; }
      k := |b.log|;
      PutWhere(s, b, q, side, desired, log);
    } else {
      assert Placed(s.cfg, first, q, side, desired) == Acted(s.cfg, b, q);
      k := |first.log|;
      PutWhere(s, first, q, side, desired, log);
    }
  }

  lemma FirstOf(queue: seq<Ticker>, t: Ticker) returns (i: nat)
    requires t in queue
    ensures i < |queue| && queue[i] == t && t !in queue[..i]
  {
    i := 0;
    while queue[i] != t
      invariant i < |queue| && t in queue[i..] && t !in queue[..i]
      decreases |queue| - i
    {
      assert queue[..i + 1] == queue[..i] + [queue[i]];
      i := i + 1;
    }
  }

  lemma QueueBooks(s: Setting, bar: nat, i: nat)
    requires Proper(s) && s.first <= bar && i <= |QueueOf(s, bar)|
    ensures forall k :: 0 <= k < i ==> HasBar(s.panel, QueueOf(s, bar)[..i][k], bar)
    ensures Balanced(s.cfg.initial, During(s, bar, QueueOf(s, bar)[..i]))
    ensures At(s, bar).log <= During(s, bar, QueueOf(s, bar)[..i]).log <= At(s, bar + 1).log
    ensures DistinctKeys(At(s, bar).positions)
  {
    hide Explained, At, During, QueueOf, Queued, HasBar, SumOf;
    var queue := QueueOf(s, bar);
    RunExplained(s, bar);
    BarTrades(s, bar);
    QueueExactly(s, bar);
    StartsMidway(s, bar);
    assert Queued(s, queue[..i], bar) by { QueuedPrefix(s, queue, bar, i); }
    DuringMidway(s, bar, queue[..i]);
    DuringGrows(s, bar, queue, i);
    DuringGrows(s, bar, queue, 0);
    assert queue[..0] == [];
    NothingDone(s, bar);
    assert At(s, bar).log <= During(s, bar, queue[..i]).log by {
      DuringGrows(s, bar, queue[..i], 0);
      assert queue[..i][..0] == [];
    }
  }

  lemma QueuedPrefix(s: Setting, queue: seq<Ticker>, bar: nat, i: nat)
    requires Proper(s) && Queued(s, queue, bar) && i <= |queue|
    ensures Queued(s, queue[..i], bar)
  {
    hide SignalFor, Tradable;
  }

  /** At every bar, every order that the signal and the position at the bar's start call for is put to the
      execution model, with the cash and the position that the trades before it left, and logged if it
      fills. The one that closes a position finds that position as it was. */
  lemma OrdersPlaced(s: Setting, bar: nat, t: Ticker, side: Side, desired: real) returns (k: nat)
    requires Proper(s) && Tradable(s, t, bar)
    requires var held := SharesOf(At(s, bar).log, t);
             && CalledFor(s.cfg.execution.allowShort, side, desired, SignalFor(s, t, bar), held, SizeFor(s, t, bar))
             && (side == Buy <==> held <= 0.0)
    ensures PutAt(s, At(s, bar + 1).log, k, t, bar, side, desired)
    ensures desired == Abs(SharesOf(At(s, bar).log, t)) ==>
              SharesOf(At(s, bar + 1).log[..k], t) == SharesOf(At(s, bar).log, t)
  {
    hide At, During, QueueOf, Queued, SharesOf, PutAt, QuoteFor, EquityFor, Acted, SignalFor, SizeFor, Held;
    var queue, held := QueueOf(s, bar), SharesOf(At(s, bar).log, t);
    QueueExactly(s, bar);
    BarTrades(s, bar);
    BooksShares(s.cfg.initial, At(s, bar), t);
    var i := FirstOf(queue, t);
    QueueBooks(s, bar, i);
    QueueBooks(s, bar, i + 1);
    var b := During(s, bar, queue[..i]);
    DuringKeepsOthers(s, bar, queue[..i], t);
    BooksShares(s.cfg.initial, b, t);
    assert queue[..i + 1][..i] == queue[..i];
    DuringStep(s, bar, queue[..i + 1]);
    QuoteIs(s, t, bar);
    QuoteSignal(s, t, bar);
    var q := QuoteFor(s.cfg, s.panel, s.n, bar, bar - s.cfg.execution.delayBars, EquityFor(s, bar), |s.tickers|, t);
    k := ActedPuts(s, b, q, side, desired, At(s, bar + 1).log);
    assert At(s, bar + 1).log[..|b.log|] == b.log;
  }

  /** So a sale that is called for, at a price and with volume enough, is made in full. */
  lemma SalesMade(s: Setting, bar: nat, t: Ticker, desired: real) returns (k: nat)
    requires Proper(s) && Tradable(s, t, bar)
    requires var held := SharesOf(At(s, bar).log, t);
             held > 0.0 && CalledFor(s.cfg.execution.allowShort, Sell, desired, SignalFor(s, t, bar), held, SizeFor(s, t, bar))
    requires desired >= 0.000000001 && s.panel[t].close[bar] >= 0.000000001
    requires VolumeCap(s.cfg.execution.slippage, Liquidity(s.cfg, s.panel[t], bar - s.cfg.execution.delayBars).1) >= desired
    ensures var log := At(s, bar + 1).log;
            && |At(s, bar).log| <= k < |log| && log[k].bar == bar && log[k].ticker == t && log[k].side == Sell
            && log[k].desired == desired && log[k].qty == Round6(desired)
  {
    hide At, SharesOf, Liquidity, VolumeCap, SizeFor, SignalFor, ExecuteOrder, Affordable, FillPrice, Round6;
    k := OrdersPlaced(s, bar, t, Sell, desired);
    var o := OrderAt(s, At(s, bar + 1).log, k, t, bar, Sell, desired);
    FillsUncapped(s.cfg.execution, o);
  }

  /** And so is a buy, where the cash at that moment, less the reserve, pays for it. */
  lemma BuysMade(s: Setting, bar: nat, t: Ticker, desired: real) returns (k: nat)
    requires Proper(s) && Tradable(s, t, bar)
    requires var held := SharesOf(At(s, bar).log, t);
             held <= 0.0 && CalledFor(s.cfg.execution.allowShort, Buy, desired, SignalFor(s, t, bar), held, SizeFor(s, t, bar))
    requires desired >= 0.000000001 && s.panel[t].close[bar] >= 0.000000001
    requires VolumeCap(s.cfg.execution.slippage, Liquidity(s.cfg, s.panel[t], bar - s.cfg.execution.delayBars).1) >= desired
    ensures var log := At(s, bar + 1).log;
            && |At(s, bar).log| <= k <= |log|
            && var o := OrderAt(s, log, k, t, bar, Buy, desired);
               (FillPrice(s.cfg.execution, o) > 0.0 && Usable(s.cfg.execution, o) >= desired * FillPrice(s.cfg.execution, o) ==>
                  && k < |log| && log[k].bar == bar && log[k].ticker == t && log[k].side == Buy
                  && log[k].desired == desired && log[k].qty == Round6(desired))
  {
    hide At, SharesOf, Liquidity, VolumeCap, SizeFor, SignalFor, ExecuteOrder, FillPrice, Usable, Round6;
    k := OrdersPlaced(s, bar, t, Buy, desired);
    var o := OrderAt(s, At(s, bar + 1).log, k, t, bar, Buy, desired);
    if FillPrice(s.cfg.execution, o) > 0.0 && Usable(s.cfg.execution, o) >= desired * FillPrice(s.cfg.execution, o) {
      Affords(Usable(s.cfg.execution, o), desired, FillPrice(s.cfg.execution, o));
      FillsUncapped(s.cfg.execution, o);
    }
  }

  lemma Affords(cash: real, shares: real, price: real)
    requires price > 0.0 && cash >= shares * price
    ensures cash / price >= shares
  {
    var r := cash / price;
    assert r * price == cash;
    if r < shares {
      Positive(shares - r, price);
    }
  }
}

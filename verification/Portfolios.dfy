/**
 The event simulator's portfolio: cash, positions, average costs, and what fills do to them, over
 exact reals.
 */
module Portfolios {
  import opened Wrappers
  import opened OrderedMaps
  import opened Reals

  type Ticker = string
  type Prices = map<Ticker, real>
  type Positions = OrderedMap<Ticker, real>

  datatype Fill = Fill(
    timestamp: int,
    ticker: Ticker,
    qty: real,
    price: real,
    commission: real,
    slippage: real,
    borrow: real)

  datatype Book = Book(
    cash: real,
    positions: Positions,
    avgCosts: map<Ticker, real>,
    equity: seq<real>,
    dailyReturns: seq<real>,
    log: seq<Fill>,
    commission: real,
    slippage: real,
    borrow: real)

  function PriceOf(prices: Prices, t: Ticker): real {
    if t in prices then prices[t] else 0.0
  }

  function Held(m: Positions, t: Ticker): real {
    match Find(m, t)
    case None => 0.0
    case Some(q) => q
  }

  /** A sum over the positions. */
  function Total(m: Positions, f: (Ticker, real) -> real): real {
    if m == [] then 0.0 else f(m[0].key, m[0].value) + Total(m[1..], f)
  }

  // ----- Operations

  function Opening(initial: real): Book {
    Book(initial, [], map[], [initial], [0.0], [], 0.0, 0.0, 0.0)
  }

  predicate SameSide(a: real, b: real) {
    a > 0.0 <==> b > 0.0
  }

  /** The weighted average cost when a position is extended. */
  function Blend(prevCost: real, prev: real, price: real, qty: real): real
    requires prev + qty != 0.0
  {
    (prevCost * Abs(prev) + price * Abs(qty)) / Abs(prev + qty)
  }

  function CashOut(f: Fill): real {
    f.qty * f.price + f.commission + f.borrow
  }

  /** The average costs after a fill. */
  function CostsAfter(costs: map<Ticker, real>, f: Fill, prev: real): map<Ticker, real> {
    var next := prev + f.qty;
    if next == 0.0 then costs - {f.ticker}
    else if prev == 0.0 || !SameSide(prev, next) then costs[f.ticker := f.price]
    else if Abs(next) > Abs(prev) then
      var prevCost := if f.ticker in costs then costs[f.ticker] else f.price;
      costs[f.ticker := Blend(prevCost, prev, f.price, f.qty)]
    else costs
  }

  /** `Portfolio.process_fill` */
  function AfterFill(b: Book, f: Fill): Book {
    var prev := Held(b.positions, f.ticker);
    b.(positions := Put(b.positions, f.ticker, prev + f.qty),
       avgCosts := CostsAfter(b.avgCosts, f, prev),
       cash := b.cash - CashOut(f),
       commission := b.commission + f.commission,
       slippage := b.slippage + f.slippage,
       borrow := b.borrow + f.borrow,
       log := b.log + [f])
  }

  function BorrowOn(prices: Prices, rate: real): (Ticker, real) -> real {
    (t, q) => if q < 0.0 then Abs(q) * PriceOf(prices, t) * rate / 252.0 else 0.0
  }

  /** `Portfolio.accrue_borrow` */
  function AfterBorrow(b: Book, prices: Prices, rate: real): Book {
    var cost := Total(b.positions, BorrowOn(prices, rate));
    b.(cash := b.cash - cost, borrow := b.borrow + cost)
  }

  function ValueAt(prices: Prices): (Ticker, real) -> real {
    (t, q) => q * PriceOf(prices, t)
  }

  /** `Portfolio.update_equity`. The curve is never empty, so a return is always against the last point. */
  function AfterMark(b: Book, prices: Prices): Book {
    var equity := b.cash + Total(b.positions, ValueAt(prices));
    var r := if b.equity == [] then 0.0
             else
               var last := b.equity[|b.equity| - 1];
               (equity - last) / (if Abs(last) > 0.000000001 then Abs(last) else 0.000000001);
    b.(equity := b.equity + [equity], dailyReturns := b.dailyReturns + [r])
  }

  class Portfolio {
    var cash: real
    var positions: Positions
    var avgCosts: map<Ticker, real>
    var equityCurve: seq<real>
    var dailyReturns: seq<real>
    var tradeLog: seq<Fill>
    var totalCommission: real
    var totalSlippage: real
    var totalBorrow: real

    constructor (initial: real)
      ensures Abstract() == Opening(initial)
    {
      cash, positions, avgCosts := initial, [], map[];
      equityCurve, dailyReturns, tradeLog := [initial], [0.0], [];
      totalCommission, totalSlippage, totalBorrow := 0.0, 0.0, 0.0;
    }

    function Abstract(): Book
      reads this
    {
      Book(cash, positions, avgCosts, equityCurve, dailyReturns, tradeLog, totalCommission, totalSlippage, totalBorrow)
    }

    method ProcessFill(f: Fill)
      modifies this
      ensures Abstract() == AfterFill(old(Abstract()), f)
    {
      hide CostsAfter, CashOut, Put, Held;
      var prev := Held(positions, f.ticker);
      positions := Put(positions, f.ticker, prev + f.qty);
      UpdateCost(f, prev);
      cash := cash - CashOut(f);
      totalCommission := totalCommission + f.commission;
      totalSlippage := totalSlippage + f.slippage;
      totalBorrow := totalBorrow + f.borrow;
      tradeLog := tradeLog + [f];
    }

    /** The average cost of the filled ticker. */
    method UpdateCost(f: Fill, prev: real)
      modifies this`avgCosts
      ensures avgCosts == CostsAfter(old(avgCosts), f, prev)
    {
      hide Blend;
      var next := prev + f.qty;
      if next == 0.0 {
        avgCosts := avgCosts - {f.ticker};
      } else if prev == 0.0 || (prev > 0.0) != (next > 0.0) {
        avgCosts := avgCosts[f.ticker := f.price];
      } else if Abs(next) > Abs(prev) {
        var prevCost := if f.ticker in avgCosts then avgCosts[f.ticker] else f.price;
        avgCosts := avgCosts[f.ticker := Blend(prevCost, prev, f.price, f.qty)];
      }
    }

    method AccrueBorrow(prices: Prices, rate: real) returns (cost: real)
      modifies this`cash, this`totalBorrow
      ensures Abstract() == AfterBorrow(old(Abstract()), prices, rate)
      ensures cost == Total(positions, BorrowOn(prices, rate))
    {
      cost := Total(positions, BorrowOn(prices, rate));
      cash := cash - cost;
      totalBorrow := totalBorrow + cost;
    }

    method UpdateEquity(prices: Prices) returns (equity: real)
      modifies this`equityCurve, this`dailyReturns
      ensures Abstract() == AfterMark(old(Abstract()), prices)
      ensures equity == cash + Total(positions, ValueAt(prices))
    {
      equity := cash + Total(positions, ValueAt(prices));
      if equityCurve != [] {
        var last := equityCurve[|equityCurve| - 1];
        dailyReturns := dailyReturns + [(equity - last) / (if Abs(last) > 0.000000001 then Abs(last) else 0.000000001)];
      } else {
        dailyReturns := dailyReturns + [0.0];
      }
      equityCurve := equityCurve + [equity];
    }
  }

  // ----- Sums over positions

  lemma {:induction false} TotalAfterPut(m: Positions, t: Ticker, q: real, f: (Ticker, real) -> real)
    requires DistinctKeys(m)
    ensures Total(Put(m, t, q), f)
         == Total(m, f) - (if Has(m, t) then f(t, Held(m, t)) else 0.0) + f(t, q)
  {
    if m == [] {
      assert [Entry(t, q)][1..] == [];
    } else {
      assert forall i :: 0 < i < |m| ==> m[i] == m[1..][i - 1];
      if m[0].key == t {
        assert ([Entry(t, q)] + m[1..])[1..] == m[1..];
      } else {
        TotalAfterPut(m[1..], t, q, f);
        assert Has(m, t) <==> Has(m[1..], t);
        assert ([m[0]] + Put(m[1..], t, q))[1..] == Put(m[1..], t, q);
      }
    }
  }

  lemma {:induction false} TotalSame(m: Positions, f: (Ticker, real) -> real, g: (Ticker, real) -> real)
    requires forall i :: 0 <= i < |m| ==> f(m[i].key, m[i].value) == g(m[i].key, m[i].value)
    ensures Total(m, f) == Total(m, g)
  {
    if m != [] {
      assert forall i :: 0 < i < |m| ==> m[i] == m[1..][i - 1];
      TotalSame(m[1..], f, g);
    }
  }

  // ----- Cost-basis conservation

  function CostOf(costs: map<Ticker, real>): (Ticker, real) -> real {
    (t, q) => if t in costs then Product(q, costs[t]) else 0.0
  }

  /** What the open positions cost: the sum of position times average cost. */
  function Basis(b: Book): real {
    Total(b.positions, CostOf(b.avgCosts))
  }

  /** The profit a fill realises: on the shares of the old position it closes, if any, the
      difference between its price and their average cost. */
  function Realised(b: Book, f: Fill): real {
    RealisedOn(Held(b.positions, f.ticker), CostAt(b, f.ticker), f.qty, f.price)
  }

  /** Every open position has an average cost, and only open positions have one. */
  predicate Costed(b: Book) {
    && (forall i, j :: 0 <= i < j < |b.positions| ==> b.positions[i].key != b.positions[j].key)
    && (forall i :: 0 <= i < |b.positions| ==>
          (b.positions[i].value != 0.0 <==> b.positions[i].key in b.avgCosts))
  }

  lemma HeldCosted(b: Book, t: Ticker)
    requires Costed(b)
    ensures Held(b.positions, t) != 0.0 ==> t in b.avgCosts
    ensures Has(b.positions, t) && Held(b.positions, t) == 0.0 ==> t !in b.avgCosts
  {
    if Has(b.positions, t) {
      FindInEntry(b.positions, t, Find(b.positions, t).value);
    }
  }

  lemma CostKeys(b: Book, f: Fill)
    requires Costed(b)
    ensures var next := Held(b.positions, f.ticker) + f.qty;
            forall t :: t in CostsAfter(b.avgCosts, f, Held(b.positions, f.ticker)) <==>
              if t == f.ticker then next != 0.0 else t in b.avgCosts
    ensures forall t :: t != f.ticker && t in b.avgCosts ==>
              CostsAfter(b.avgCosts, f, Held(b.positions, f.ticker))[t] == b.avgCosts[t]
  {
    hide Blend;
    HeldCosted(b, f.ticker);
  }

  lemma FillKeepsCosted(b: Book, f: Fill)
    requires Costed(b)
    ensures Costed(AfterFill(b, f))
  {
    hide CostsAfter, Held, Put, AfterFill;
    var next := Held(b.positions, f.ticker) + f.qty;
    var costs := CostsAfter(b.avgCosts, f, Held(b.positions, f.ticker));
    CostKeys(b, f);
    FilledParts(b, f);
    PutKeepsCosted(b.positions, b.avgCosts, f.ticker, next, costs);
  }

  lemma FilledParts(b: Book, f: Fill)
    ensures AfterFill(b, f).positions == Put(b.positions, f.ticker, Held(b.positions, f.ticker) + f.qty)
    ensures AfterFill(b, f).avgCosts == CostsAfter(b.avgCosts, f, Held(b.positions, f.ticker))
    ensures AfterFill(b, f).cash == b.cash - CashOut(f)
  {
    hide CostsAfter, CashOut, Put, Held;
  }

  lemma PutKeepsCosted(m: Positions, costs: map<Ticker, real>, t: Ticker, q: real, after: map<Ticker, real>)
    requires DistinctKeys(m)
    requires forall i :: 0 <= i < |m| ==> (m[i].value != 0.0 <==> m[i].key in costs)
    requires forall k :: k in after <==> if k == t then q != 0.0 else k in costs
    ensures var p := Put(m, t, q);
            DistinctKeys(p) && forall i :: 0 <= i < |p| ==> (p[i].value != 0.0 <==> p[i].key in after)
  {
    hide Put, Find;
    FindAfterPut(m, t, q, t);
    PutShape(m, t, q);
  }

  /** The new cost of the filled position. */
  function NewCost(prev: real, cost: real, qty: real, price: real): real {
    var next := prev + qty;
    if next == 0.0 then 0.0
    else if prev == 0.0 || !SameSide(prev, next) then price
    else if Abs(next) > Abs(prev) then Blend(cost, prev, price, qty)
    else cost
  }

  function RealisedOn(prev: real, cost: real, qty: real, price: real): real {
    if prev > 0.0 && qty < 0.0 then Min(prev, -qty) * (price - cost)
    else if prev < 0.0 && qty > 0.0 then Min(-prev, qty) * (cost - price)
    else 0.0
  }

  /** The cost term of the filled position moves by the cash paid plus the profit realised. */
  lemma TermMoves(prev: real, cost: real, qty: real, price: real)
    ensures (prev + qty) * NewCost(prev, cost, qty, price) - prev * cost == qty * price + RealisedOn(prev, cost, qty, price)
  {
    var next := prev + qty;
    if next != 0.0 && prev != 0.0 && SameSide(prev, next) && Abs(next) > Abs(prev) {
      Averaged(Abs(next), cost * Abs(prev) + price * Abs(qty));
    }
  }

  lemma Averaged(n: real, total: real)
    requires n > 0.0
    ensures n * (total / n) == total
  {
  }

  /** A fill moves cash and basis together: what it does to their sum is the profit it realises,
      less commission and borrow. */
  lemma FillConserves(b: Book, f: Fill)
    requires Costed(b)
    ensures AfterFill(b, f).cash + Basis(AfterFill(b, f))
         == b.cash + Basis(b) + Realised(b, f) - f.commission - f.borrow
  {
    hide Total, Put, Held, AfterFill, CostsAfter, CostOf, CostAt, NewCost, RealisedOn;
    var prev := Held(b.positions, f.ticker);
    var costs := CostsAfter(b.avgCosts, f, prev);
    FilledParts(b, f);
    TotalAfterPut(b.positions, f.ticker, prev + f.qty, CostOf(costs));
    OthersSame(b, f);
    FilledTerm(b, f);
    TermMoves(prev, CostAt(b, f.ticker), f.qty, f.price);
  }

  function CostAt(b: Book, t: Ticker): real {
    if t in b.avgCosts then b.avgCosts[t] else 0.0
  }

  lemma FilledTerm(b: Book, f: Fill)
    requires Costed(b)
    ensures var prev := Held(b.positions, f.ticker);
            && CostOf(CostsAfter(b.avgCosts, f, prev))(f.ticker, prev + f.qty)
               == Product(prev + f.qty, NewCost(prev, CostAt(b, f.ticker), f.qty, f.price))
            && (if Has(b.positions, f.ticker) then CostOf(b.avgCosts)(f.ticker, prev) else 0.0)
               == Product(prev, CostAt(b, f.ticker))
  {
    hide Blend, Product, Costed, Find;
    NoTerm();
    HeldCosted(b, f.ticker);
  }

  lemma NoTerm()
    ensures forall x :: Product(0.0, x) == 0.0
    ensures forall x :: Product(x, 0.0) == 0.0
  {
  }

  /** The old positions, at the new costs: only the filled ticker's term differs. */
  lemma OthersSame(b: Book, f: Fill)
    requires Costed(b)
    ensures var costs := CostsAfter(b.avgCosts, f, Held(b.positions, f.ticker));
            var at := if Has(b.positions, f.ticker) then CostOf(costs)(f.ticker, Held(b.positions, f.ticker)) else 0.0;
            var was := if Has(b.positions, f.ticker) then CostOf(b.avgCosts)(f.ticker, Held(b.positions, f.ticker)) else 0.0;
            Total(b.positions, CostOf(costs)) - at == Basis(b) - was
  {
    hide CostsAfter;
    var costs := CostsAfter(b.avgCosts, f, Held(b.positions, f.ticker));
    CostKeys(b, f);
    TotalWithout(b.positions, f.ticker, CostOf(costs), CostOf(b.avgCosts));
  }

  lemma {:induction false} TotalWithout(m: Positions, t: Ticker, f: (Ticker, real) -> real, g: (Ticker, real) -> real)
    requires DistinctKeys(m)
    requires forall k, q :: k != t ==> f(k, q) == g(k, q)
    ensures Total(m, f) - (if Has(m, t) then f(t, Held(m, t)) else 0.0)
         == Total(m, g) - (if Has(m, t) then g(t, Held(m, t)) else 0.0)
  {
    if m != [] {
      assert forall i :: 0 < i < |m| ==> m[i] == m[1..][i - 1];
      if m[0].key == t {
        forall i | 0 <= i < |m[1..]|
          ensures f(m[1..][i].key, m[1..][i].value) == g(m[1..][i].key, m[1..][i].value)
        {
          var e := m[i + 1];
          assert m[1..][i] == e && m[0].key != e.key;
          assert e.key != t;
          var k, q := e.key, e.value;
          assert f(k, q) == g(k, q);
        }
        TotalSame(m[1..], f, g);
      } else {
        assert Has(m, t) <==> Has(m[1..], t);
        TotalWithout(m[1..], t, f, g);
      }
    }
  }

  // ----- Over any sequence of events

  datatype Event = Filled(fill: Fill) | Accrued(prices: Prices, rate: real) | Marked(prices: Prices)

  function After(b: Book, e: Event): Book {
    match e
    case Filled(f) => AfterFill(b, f)
    case Accrued(prices, rate) => AfterBorrow(b, prices, rate)
    case Marked(prices) => AfterMark(b, prices)
  }

  function Run(b: Book, events: seq<Event>): Book {
    if events == [] then b else After(Run(b, events[..|events| - 1]), events[|events| - 1])
  }

  /** The profit realised over a run. */
  function TotalRealised(b: Book, events: seq<Event>): real {
    if events == [] then 0.0
    else
      var front, e := events[..|events| - 1], events[|events| - 1];
      TotalRealised(b, front) + if e.Filled? then Realised(Run(b, front), e.fill) else 0.0
  }

  lemma {:induction false} RunConserves(initial: real, events: seq<Event>)
    ensures var b := Run(Opening(initial), events);
            && Costed(b)
            && b.cash + Basis(b) == initial + TotalRealised(Opening(initial), events) - b.commission - b.borrow
  {
    hide Basis, Costed, Realised, AfterFill;
    if events == [] {
      OpeningBalanced(initial);
    } else {
      var front, e := events[..|events| - 1], events[|events| - 1];
      var b := Run(Opening(initial), front);
      RunConserves(initial, front);
      match e
      case Filled(f) =>
        FillKeepsCosted(b, f);
        FillConserves(b, f);
        FillTotals(b, f);
      case Accrued(prices, rate) => SameHoldings(b, AfterBorrow(b, prices, rate));
      case Marked(prices) => SameHoldings(b, AfterMark(b, prices));
    }
  }

  lemma FillTotals(b: Book, f: Fill)
    ensures AfterFill(b, f).commission == b.commission + f.commission && AfterFill(b, f).borrow == b.borrow + f.borrow
  {
  }

  lemma OpeningBalanced(initial: real)
    ensures Costed(Opening(initial)) && Basis(Opening(initial)) == 0.0
  {
  }

  lemma SameHoldings(b: Book, c: Book)
    requires Costed(b) && c.positions == b.positions && c.avgCosts == b.avgCosts
    ensures Costed(c) && Basis(c) == Basis(b)
  {
  }

  // ----- The log accounts for the totals and the positions

  function LogSum(log: seq<Fill>, f: Fill -> real): real {
    if log == [] then 0.0 else LogSum(log[..|log| - 1], f) + f(log[|log| - 1])
  }

  function Commissions(): Fill -> real {
    (f: Fill) => f.commission
  }

  function Slippages(): Fill -> real {
    (f: Fill) => f.slippage
  }

  function Moves(t: Ticker): Fill -> real {
    (f: Fill) => if f.ticker == t then f.qty else 0.0
  }

  ghost predicate Logged(b: Book) {
    && DistinctKeys(b.positions)
    && b.commission == LogSum(b.log, Commissions())
    && b.slippage == LogSum(b.log, Slippages())
    && forall t :: Held(b.positions, t) == LogSum(b.log, Moves(t))
  }

  lemma LogAppend(log: seq<Fill>, fill: Fill, f: Fill -> real)
    ensures LogSum(log + [fill], f) == LogSum(log, f) + f(fill)
  {
    assert (log + [fill])[..|log|] == log;
  }

  lemma FillLogged(b: Book, f: Fill)
    requires Logged(b)
    ensures Logged(AfterFill(b, f))
  {
    hide LogSum, Put, Find, CostsAfter, CashOut;
    var next := Held(b.positions, f.ticker) + f.qty;
    LogAppend(b.log, f, Commissions());
    LogAppend(b.log, f, Slippages());
    FindAfterPut(b.positions, f.ticker, next, f.ticker);
    forall t
      ensures Held(AfterFill(b, f).positions, t) == LogSum(AfterFill(b, f).log, Moves(t))
    {
      LogAppend(b.log, f, Moves(t));
      FindAfterPut(b.positions, f.ticker, next, t);
    }
  }

  /** Over any run the totals are the sums over the log, and each position is the sum of its fills. */
  lemma {:induction false} RunLogged(initial: real, events: seq<Event>)
    ensures Logged(Run(Opening(initial), events))
  {
    hide AfterFill;
    if events != [] {
      var front, e := events[..|events| - 1], events[|events| - 1];
      RunLogged(initial, front);
      if e.Filled? {
        FillLogged(Run(Opening(initial), front), e.fill);
      }
    }
  }
}

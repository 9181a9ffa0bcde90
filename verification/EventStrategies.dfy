/**
 The two strategies of the event-driven backtester that decide from the closes so far:
 cross-sectional momentum and mean reversion. The standard deviation is a parameter.
 */
module EventStrategies {
  import opened EventBacktest
  import opened Portfolios
  import opened Reals

  // ----- Cross-sectional momentum

  datatype Score = Score(ticker: Ticker, value: real)

  /** The keys of the history, which is a dictionary filled in the order of `tickers`. */
  function FirstListed(tickers: seq<Ticker>): seq<Ticker> {
    if tickers == [] then []
    else
      var front, last := FirstListed(tickers[..|tickers| - 1]), tickers[|tickers| - 1];
      if last in front then front else front + [last]
  }

  /** What every ticker with enough closes gained since the close `lookback` from the end. */
  function Scores(keys: seq<Ticker>, lookback: nat, h: History): seq<Score>
    requires lookback > 0
  {
    if keys == [] then []
    else
      var ticker := keys[|keys| - 1];
      var closes := Closes(h, ticker);
      Scores(keys[..|keys| - 1], lookback, h)
      + if |closes| < lookback then []
        else [Score(ticker, closes[|closes| - 1] / Max(closes[|closes| - lookback], 0.000000001) - 1.0)]
  }

  function InsertScore(ranked: seq<Score>, s: Score): seq<Score> {
    if ranked == [] || ranked[|ranked| - 1].value >= s.value then ranked + [s]
    else InsertScore(ranked[..|ranked| - 1], s) + [ranked[|ranked| - 1]]
  }

  /** `sorted(scores, key=..., reverse=True)`, which leaves equal scores in their order. */
  function Ranked(scores: seq<Score>): seq<Score> {
    if scores == [] then [] else InsertScore(Ranked(scores[..|scores| - 1]), scores[|scores| - 1])
  }

  function Least(a: int, b: int): int {
    if b < a then b else a
  }

  /** Long at the top, short at the bottom, at most a third each; flat in between. */
  function SideAt(i: nat, n: nat, longs: int, shorts: int): int {
    if i < Least(longs, n / 3) then 1 else if i >= n - Least(shorts, n / 3) then -1 else 0
  }

  function RankSignals(ranked: seq<Score>, longs: int, shorts: int): (signals: seq<Signal>)
    ensures |signals| == |ranked|
  {
    seq(|ranked|, i requires 0 <= i < |ranked| =>
      var side := SideAt(i, |ranked|, longs, shorts);
      Signal(ranked[i].ticker, if side == 0 then 0.0 else ranked[i].value, side))
  }

  function Ranking(tickers: seq<Ticker>, lookback: nat, h: History): seq<Score>
    requires lookback > 0
  {
    Ranked(Scores(FirstListed(tickers), lookback, h))
  }

  /** `MomentumStrategy.on_market`: it ranks all tickers on every fifth call. */
  function Momentum(tickers: seq<Ticker>, lookback: nat, longs: int, shorts: int): Decide
    requires lookback > 0
  {
    (panel: Panel, counter: int, bar: nat, ticker: Ticker, h: History) =>
      (if (counter + 1) % 5 == 0 then RankSignals(Ranking(tickers, lookback, h), longs, shorts) else [], counter + 1)
  }

  predicate Descending(scores: seq<Score>) {
    forall i, j :: 0 <= i < j < |scores| ==> scores[i].value >= scores[j].value
  }

  lemma {:induction false} InsertElements(ranked: seq<Score>, s: Score)
    ensures multiset(InsertScore(ranked, s)) == multiset(ranked) + multiset{s}
  {
    if ranked != [] && ranked[|ranked| - 1].value < s.value {
      InsertElements(ranked[..|ranked| - 1], s);
      assert ranked == ranked[..|ranked| - 1] + [ranked[|ranked| - 1]];
    }
  }

  predicate AllAtLeast(scores: seq<Score>, least: real) {
    forall i :: 0 <= i < |scores| ==> scores[i].value >= least
  }

  lemma {:induction false} InsertAbove(ranked: seq<Score>, s: Score, least: real)
    requires AllAtLeast(ranked, least) && s.value >= least
    ensures AllAtLeast(InsertScore(ranked, s), least)
  {
    if ranked != [] && ranked[|ranked| - 1].value < s.value {
      InsertAbove(ranked[..|ranked| - 1], s, least);
    }
  }

  lemma {:induction false} InsertDescending(ranked: seq<Score>, s: Score)
    requires Descending(ranked)
    ensures Descending(InsertScore(ranked, s))
  {
    if ranked != [] && ranked[|ranked| - 1].value < s.value {
      var front, last := ranked[..|ranked| - 1], ranked[|ranked| - 1];
      InsertDescending(front, s);
      InsertAbove(front, s, last.value);
    }
  }

  lemma {:induction false} RankedSorts(scores: seq<Score>)
    ensures Descending(Ranked(scores))
    ensures multiset(Ranked(scores)) == multiset(scores)
  {
    if scores != [] {
      var front, last := scores[..|scores| - 1], scores[|scores| - 1];
      assert scores == front + [last];
      RankedSorts(front);
      InsertElements(Ranked(front), last);
      InsertDescending(Ranked(front), last);
    }
  }

  /** Whoever is ranked is scored, and a ticker on the longer side of another has a score no lower;
      both sides keep to their third of the ranking. */
  lemma MomentumTakesExtremes(tickers: seq<Ticker>, lookback: nat, longs: int, shorts: int, h: History, i: nat, j: nat)
    requires lookback > 0 && i < |Ranking(tickers, lookback, h)| && j < |Ranking(tickers, lookback, h)|
    ensures var ranked := Ranking(tickers, lookback, h); var signals := RankSignals(ranked, longs, shorts);
            && multiset(ranked) == multiset(Scores(FirstListed(tickers), lookback, h))
            && (signals[i].direction > signals[j].direction ==> ranked[i].value >= ranked[j].value)
            && (signals[i].direction == 1 ==> 3 * (i + 1) <= |ranked|)
            && (signals[i].direction == -1 ==> 3 * (|ranked| - i) <= |ranked|)
  {
    hide Ranked, Scores, FirstListed;
    RankedSorts(Scores(FirstListed(tickers), lookback, h));
  }

  /** Exactly who is on which side: the first `longs` of the ranking as far as a third of it goes, the last
      `shorts` likewise, with their scores as strength; everyone else gets a flat signal. */
  lemma SidesExactly(ranked: seq<Score>, longs: int, shorts: int, i: nat)
    requires i < |ranked|
    ensures var n, s := |ranked|, RankSignals(ranked, longs, shorts)[i];
            && s.ticker == ranked[i].ticker
            && (s.direction == 1 <==> i < longs && 3 * (i + 1) <= n)
            && (s.direction == -1 <==> !(i < longs && 3 * (i + 1) <= n) && n - i <= shorts && 3 * (n - i) <= n)
            && -1 <= s.direction <= 1
            && s.strength == if s.direction == 0 then 0.0 else ranked[i].value
  {
  }

  /** A ticker is scored exactly when it has enough closes, and then with what it gained since the close
      `lookback` from the end. */
  lemma {:induction false} ScoresExactly(keys: seq<Ticker>, lookback: nat, h: History, t: Ticker)
    requires lookback > 0
    ensures Scored(Scores(keys, lookback, h), t) <==> t in keys && |Closes(h, t)| >= lookback
    ensures forall i :: 0 <= i < |Scores(keys, lookback, h)| && Scores(keys, lookback, h)[i].ticker == t ==>
              && |Closes(h, t)| >= lookback
              && Product(Scores(keys, lookback, h)[i].value + 1.0, Max(Closes(h, t)[|Closes(h, t)| - lookback], 0.000000001))
                 == Closes(h, t)[|Closes(h, t)| - 1]
  {
    hide Product, Closes;
    if keys != [] {
      var front, last := keys[..|keys| - 1], keys[|keys| - 1];
      assert keys == front + [last];
      ScoresExactly(front, lookback, h, t);
      var before, closes := Scores(front, lookback, h), Closes(h, last);
      if |closes| >= lookback {
        ScoredToo(before, Scores(keys, lookback, h)[|before|], t);
        Gained(closes[|closes| - 1], Max(closes[|closes| - lookback], 0.000000001));
      } else {
        assert before + [] == before;
      }
    }
  }

  predicate Scored(scores: seq<Score>, t: Ticker) {
    exists i :: 0 <= i < |scores| && scores[i].ticker == t
  }

  lemma ScoredToo(scores: seq<Score>, s: Score, t: Ticker)
    ensures Scored(scores + [s], t) <==> Scored(scores, t) || s.ticker == t
  {
    var all := scores + [s];
    assert all[|scores|] == s;
    if i :| 0 <= i < |scores| && scores[i].ticker == t {
      assert all[i].ticker == t;
    }
  }

  lemma Gained(now: real, before: real)
    requires before > 0.0
    ensures Product(now / before - 1.0 + 1.0, before) == now
  {
  }

  /** `t` is listed before `u` is for the first time. */
  predicate ListedBefore(tickers: seq<Ticker>, t: Ticker, u: Ticker) {
    exists a :: 0 <= a < |tickers| && tickers[a] == t && u !in tickers[..a + 1]
  }

  /** The listed tickers, each once, in the order they are first listed. */
  predicate AreKeys(tickers: seq<Ticker>, keys: seq<Ticker>) {
    && (forall t :: t in tickers ==> t in keys) && (forall i :: 0 <= i < |keys| ==> keys[i] in tickers)
    && (forall i, j :: 0 <= i < j < |keys| ==> keys[i] != keys[j])
    && forall i, j :: 0 <= i < j < |keys| ==> ListedBefore(tickers, keys[i], keys[j])
  }

  lemma {:induction false} KeysAreListed(tickers: seq<Ticker>)
    ensures AreKeys(tickers, FirstListed(tickers))
  {
    hide AreKeys;
    if tickers == [] {
      NoKeys();
    } else {
      var front, last := tickers[..|tickers| - 1], tickers[|tickers| - 1];
      KeysAreListed(front);
      OneMoreListed(front, FirstListed(front), last);
      assert tickers == front + [last];
    }
  }

  lemma NoKeys()
    ensures AreKeys([], [])
  {
  }

  lemma OneMoreListed(front: seq<Ticker>, before: seq<Ticker>, last: Ticker)
    requires AreKeys(front, before)
    ensures AreKeys(front + [last], if last in before then before else before + [last])
  {
    var tickers, keys := front + [last], if last in before then before else before + [last];
    forall i, j | 0 <= i < j < |keys|
      ensures ListedBefore(tickers, keys[i], keys[j])
    {
      if j < |before| {
        assert ListedBefore(front, before[i], before[j]);
        var a :| 0 <= a < |front| && front[a] == before[i] && before[j] !in front[..a + 1];
        assert tickers[..a + 1] == front[..a + 1] && tickers[a] == keys[i];
      } else {
        assert before[i] in front;
        var a :| 0 <= a < |front| && front[a] == before[i];
        assert tickers[..a + 1] == front[..a + 1] && tickers[a] == keys[i];
        assert last !in front;
      }
    }
  }

  /** Where a score is inserted: after all that are not lower. */
  lemma {:induction false} InsertedAt(ranked: seq<Score>, s: Score) returns (at: nat)
    requires Descending(ranked)
    ensures at <= |ranked| && InsertScore(ranked, s) == ranked[..at] + [s] + ranked[at..]
    ensures forall i :: at <= i < |ranked| ==> ranked[i].value < s.value
    ensures forall i :: 0 <= i < at ==> ranked[i].value >= s.value
  {
    at := |ranked|;
    if ranked != [] && ranked[|ranked| - 1].value < s.value {
      var front, last := ranked[..|ranked| - 1], ranked[|ranked| - 1];
      at := InsertedAt(front, s);
      assert front[..at] == ranked[..at] && front[at..] + [last] == ranked[at..];
    }
  }

  /** Equal scores keep the order they were scored in. */
  predicate Stable(scores: seq<Score>, ranked: seq<Score>) {
    forall i, j :: 0 <= i < j < |ranked| && ranked[i].value == ranked[j].value ==>
      exists a, b :: 0 <= a < b < |scores| && scores[a] == ranked[i] && scores[b] == ranked[j]
  }

  lemma {:induction false} RankedStable(scores: seq<Score>)
    ensures Stable(scores, Ranked(scores))
  {
    if scores != [] {
      var front, n := scores[..|scores| - 1], |scores| - 1;
      RankedStable(front);
      RankedSorts(front);
      var before, s := Ranked(front), scores[n];
      var at := InsertedAt(before, s);
      InsertedStable(front, before, s, at);
      assert front + [s] == scores;
    }
  }

  lemma InsertedStable(front: seq<Score>, before: seq<Score>, s: Score, at: nat)
    requires Stable(front, before) && multiset(before) == multiset(front) && at <= |before|
    requires forall i :: at <= i < |before| ==> before[i].value < s.value
    ensures Stable(front + [s], before[..at] + [s] + before[at..])
  {
    var all, r := front + [s], before[..at] + [s] + before[at..];
    forall i, j | 0 <= i < j < |r| && r[i].value == r[j].value
      ensures exists a, b :: 0 <= a < b < |all| && all[a] == r[i] && all[b] == r[j]
    {
      if j == at {
        assert before[i] in multiset(front);
        var a :| 0 <= a < |front| && front[a] == before[i];
        assert all[a] == r[i] && all[|front|] == r[j];
      } else {
        assert i != at;
        var k, l := if i < at then i else i - 1, if j < at then j else j - 1;
        assert r[i] == before[k] && r[j] == before[l];
        var a, b :| 0 <= a < b < |front| && front[a] == before[k] && front[b] == before[l];
        assert all[a] == r[i] && all[b] == r[j];
      }
    }
  }

  // ----- How often it ranks

  function Repeated<T>(s: seq<T>, times: nat): seq<T> {
    if times == 0 then [] else Repeated(s, times - 1) + s
  }

  /** How many of the next `n` calls rank. */
  function RankingCalls(counter: nat, n: nat): nat {
    (counter + n) / 5 - counter / 5
  }

  /** How many calls `bars` bars make of a strategy when `k` tickers are listed. */
  function Calls(k: nat, bars: nat): nat {
    if bars == 0 then 0 else Calls(k, bars - 1) + k
  }

  /** How many of the calls of one bar rank. */
  function Rankings(k: nat, bar: nat): nat {
    RankingCalls(Calls(k, bar), k)
  }

  lemma {:induction false} MomentumSignals(cfg: Config, panel: Panel, counter: nat, bar: nat, n: nat, h: History,
          lookback: nat, longs: int, shorts: int)
    requires lookback > 0 && cfg.decide == Momentum(cfg.tickers, lookback, longs, shorts) && n <= |cfg.tickers|
    ensures AllSignals(cfg, panel, counter, bar, n, h)
         == (Repeated(RankSignals(Ranking(cfg.tickers, lookback, h), longs, shorts), RankingCalls(counter, n)), counter + n)
  {
    hide RankSignals, Ranking, Momentum, Repeated, RankingCalls;
    var signals := RankSignals(Ranking(cfg.tickers, lookback, h), longs, shorts);
    if n == 0 {
      NoCalls(signals, counter);
    } else {
      MomentumSignals(cfg, panel, counter, bar, n - 1, h, lookback, longs, shorts);
      MomentumAnswers(panel, counter + n - 1, bar, cfg.tickers[n - 1], h, cfg.tickers, lookback, longs, shorts);
      OneMoreCall(signals, counter, n);
    }
  }

  lemma MomentumAnswers(panel: Panel, counter: int, bar: nat, ticker: Ticker, h: History, tickers: seq<Ticker>,
          lookback: nat, longs: int, shorts: int)
    requires lookback > 0
    ensures Momentum(tickers, lookback, longs, shorts)(panel, counter, bar, ticker, h)
         == (if (counter + 1) % 5 == 0 then RankSignals(Ranking(tickers, lookback, h), longs, shorts) else [], counter + 1)
  {
    hide RankSignals, Ranking;
  }

  lemma NoCalls<T>(s: seq<T>, counter: nat)
    ensures Repeated(s, RankingCalls(counter, 0)) == []
  {
  }

  lemma OneMoreCall<T>(s: seq<T>, counter: nat, n: nat)
    requires n > 0
    ensures Repeated(s, RankingCalls(counter, n))
         == Repeated(s, RankingCalls(counter, n - 1)) + if (counter + n) % 5 == 0 then s else []
  {
    if (counter + n) % 5 == 0 {
      assert (counter + n) / 5 == (counter + n - 1) / 5 + 1;
    } else {
      assert (counter + n) / 5 == (counter + n - 1) / 5;
    }
  }

  lemma {:induction false} MomentumCounter(cfg: Config, panel: Panel, n: nat, bars: nat,
          lookback: nat, longs: int, shorts: int)
    requires lookback > 0 && cfg.decide == Momentum(cfg.tickers, lookback, longs, shorts)
    requires Aligned(cfg, panel, n) && bars <= n
    ensures RunTo(cfg, panel, n, bars).counter == Calls(|cfg.tickers|, bars)
    decreases bars
  {
    hide Momentum, AllSignals, AfterBorrow, AfterMark, AfterOrders, AllStaged, PricesAt, Extended;
    if bars > 0 {
      MomentumCounter(cfg, panel, n, bars - 1, lookback, longs, shorts);
      var s := RunTo(cfg, panel, n, bars - 1);
      var h := Extended(cfg, s.history, PricesAt(cfg, panel, bars - 1));
      CountsCalls(cfg, panel, s.counter, bars - 1, h, lookback, longs, shorts);
    }
  }

  lemma CountsCalls(cfg: Config, panel: Panel, counter: nat, bar: nat, h: History, lookback: nat, longs: int, shorts: int)
    requires lookback > 0 && cfg.decide == Momentum(cfg.tickers, lookback, longs, shorts)
    ensures AllSignals(cfg, panel, counter, bar, |cfg.tickers|, h).1 == counter + |cfg.tickers|
  {
    MomentumSignals(cfg, panel, counter, bar, |cfg.tickers|, h, lookback, longs, shorts);
  }

  /** The strategy counts calls, of which a bar makes one for every listed ticker: a bar gets the same
      ranking's signals as often as a multiple of five falls in it. Any five bars in a row hold as many
      rankings as tickers are listed, so there is one in five bars, as intended, for one ticker only. */
  lemma MomentumRanksByCalls(cfg: Config, panel: Panel, n: nat, bar: nat, lookback: nat, longs: int, shorts: int)
    requires lookback > 0 && cfg.decide == Momentum(cfg.tickers, lookback, longs, shorts)
    requires Aligned(cfg, panel, n) && bar < n
    ensures var s := RunTo(cfg, panel, n, bar);
            var h := Extended(cfg, s.history, PricesAt(cfg, panel, bar));
            var signals := RankSignals(Ranking(cfg.tickers, lookback, h), longs, shorts);
            AllSignals(cfg, panel, s.counter, bar, |cfg.tickers|, h).0 == Repeated(signals, Rankings(|cfg.tickers|, bar))
    ensures var k := |cfg.tickers|;
            Rankings(k, bar) + Rankings(k, bar + 1) + Rankings(k, bar + 2) + Rankings(k, bar + 3) + Rankings(k, bar + 4) == k
  {
    hide Momentum, AllSignals, RunTo, PricesAt, Extended, RankSignals, Ranking, Repeated, Calls, RankingCalls;
    MomentumCounter(cfg, panel, n, bar, lookback, longs, shorts);
    var s := RunTo(cfg, panel, n, bar);
    var h := Extended(cfg, s.history, PricesAt(cfg, panel, bar));
    MomentumSignals(cfg, panel, s.counter, bar, |cfg.tickers|, h, lookback, longs, shorts);
    FiveBars(|cfg.tickers|, bar);
  }

  lemma FiveBars(k: nat, bar: nat)
    ensures Rankings(k, bar) + Rankings(k, bar + 1) + Rankings(k, bar + 2) + Rankings(k, bar + 3) + Rankings(k, bar + 4) == k
  {
    assert Calls(k, bar + 1) == Calls(k, bar) + k;
    assert Calls(k, bar + 2) == Calls(k, bar + 1) + k;
    assert Calls(k, bar + 3) == Calls(k, bar + 2) + k;
    assert Calls(k, bar + 4) == Calls(k, bar + 3) + k;
  }

  // ----- Mean reversion

  function Mean(x: seq<real>): real
    requires x != []
  {
    Sum(x) / (|x| as real)
  }

  /** `MeanReversionStrategy.on_market` */
  function MeanReversionAt(window: nat, bands: real, deviation: seq<real> -> real, ticker: Ticker, h: History): seq<Signal>
    requires window > 0
  {
    var closes := Closes(h, ticker);
    if |closes| < window then []
    else
      var w := closes[|closes| - window..];
      var sd := deviation(w);
      if sd < 0.000000001 then []
      else
        var z := (closes[|closes| - 1] - Mean(w)) / sd;
        if z < -bands then [Signal(ticker, -z, 1)]
        else if z > bands then [Signal(ticker, z, -1)]
        else if Abs(z) < 0.5 then [Signal(ticker, 0.0, 0)]
        else []
  }

  function MeanReversion(window: nat, bands: real, deviation: seq<real> -> real): Decide
    requires window > 0
  {
    (panel: Panel, counter: int, bar: nat, ticker: Ticker, h: History) =>
      (MeanReversionAt(window, bands, deviation, ticker, h), counter)
  }

  predicate Says(signals: seq<Signal>, direction: int) {
    signals != [] && signals[0].direction == direction
  }

  /** There is at most one signal, for the ticker asked about. It says buy exactly when the last close is
      below the lower Bollinger band, sell exactly when it is above the upper one, and flat exactly when
      it is between the bands and less than half a deviation from the mean. */
  lemma MeanReversionByBands(window: nat, bands: real, deviation: seq<real> -> real, ticker: Ticker, h: History)
    returns (mean: real)
    requires 0 < window <= |Closes(h, ticker)| && bands >= 0.0
    requires deviation(Closes(h, ticker)[|Closes(h, ticker)| - window..]) >= 0.000000001
    ensures var closes := Closes(h, ticker);
            var w, last := closes[|closes| - window..], closes[|closes| - 1];
            var width := Product(bands, deviation(w));
            var signals := MeanReversionAt(window, bands, deviation, ticker, h);
            && Product(mean, window as real) == Sum(w)
            && |signals| <= 1 && (signals != [] ==> signals[0].ticker == ticker && signals[0].strength >= 0.0)
            && (Says(signals, 1) <==> last < mean - width)
            && (Says(signals, -1) <==> last > mean + width)
            && (Says(signals, 0) <==> mean - width <= last <= mean + width && Abs(last - mean) < deviation(w) / 2.0)
            && (signals != [] ==>
                  Product(signals[0].strength, deviation(w)) == if Says(signals, 0) then 0.0 else Abs(last - mean))
  {
    hide Mean, Product;
    var closes := Closes(h, ticker);
    var w := closes[|closes| - window..];
    mean := Mean(w);
    MeanTimes(w);
    var off, sd := closes[|closes| - 1] - Mean(w), deviation(w);
    Scale(off, sd, bands);
    Scale(off, sd, 0.5);
    assert Product(0.5, sd) == sd / 2.0 by { Half(sd); }
    QuotientTimes(off, sd);
  }

  lemma MeanTimes(x: seq<real>)
    requires x != []
    ensures Product(Mean(x), |x| as real) == Sum(x)
  {
    hide Sum;
    var m := Mean(x);
    assert m * (|x| as real) == Sum(x);
  }

  lemma QuotientTimes(x: real, y: real)
    requires y > 0.0
    ensures Product(x / y, y) == x && Product(-(x / y), y) == -x && Product(0.0, y) == 0.0
    ensures x / y >= 0.0 <==> x >= 0.0
  {
    var q := x / y;
    assert q * y == x;
  }

  /** Nothing is said before the window is full, nor while its closes do not vary. */
  lemma MeanReversionSilent(window: nat, bands: real, deviation: seq<real> -> real, ticker: Ticker, h: History)
    requires window > 0
    requires var closes := Closes(h, ticker); |closes| < window || deviation(closes[|closes| - window..]) < 0.000000001
    ensures MeanReversionAt(window, bands, deviation, ticker, h) == []
  {
  }

  lemma Half(x: real)
    ensures Product(0.5, x) == x / 2.0
  {
  }

  /** A quotient within bounds, and beyond them, without the division. */
  lemma Scale(x: real, y: real, bound: real)
    requires y > 0.0
    ensures x / y < -bound <==> x < -Product(bound, y)
    ensures x / y > bound <==> x > Product(bound, y)
    ensures x / y <= -bound <==> x <= -Product(bound, y)
    ensures x / y >= bound <==> x >= Product(bound, y)
  {
    var q := x / y;
    assert x == q * y;
  }

  // ----- Moving-average crossover

  /** How far the fast mean is above the slow one, times both windows. */
  function Lead(close: seq<real>, fast: nat, slow: nat, t: nat): real
    requires 0 < fast <= t + 1 <= |close| && 0 < slow <= t + 1
  {
    Product(slow as real, Sum(close[t + 1 - fast..t + 1])) - Product(fast as real, Sum(close[t + 1 - slow..t + 1]))
  }

  lemma LeadIs(close: seq<real>, fast: nat, slow: nat, t: nat)
    requires 0 < fast <= t + 1 <= |close| && 0 < slow <= t + 1
    ensures RollingMean(close, fast, t) > RollingMean(close, slow, t) <==> Lead(close, fast, slow, t) > 0.0
    ensures RollingMean(close, fast, t) < RollingMean(close, slow, t) <==> Lead(close, fast, slow, t) < 0.0
  {
    hide Sum;
    Crosswise(Sum(close[t + 1 - fast..t + 1]), Sum(close[t + 1 - slow..t + 1]), fast as real, slow as real);
  }

  lemma Crosswise(a: real, b: real, m: real, n: real)
    requires m > 0.0 && n > 0.0
    ensures a / m > b / n <==> Product(n, a) - Product(m, b) > 0.0
    ensures a / m < b / n <==> Product(n, a) - Product(m, b) < 0.0
  {
    var x, y := a / m, b / n;
    assert a == x * m && b == y * n;
    Positive(m, n);
    assert n * a - m * b == (x - y) * (m * n);
    if x > y {
      Positive(x - y, m * n);
    } else if x < y {
      Positive(y - x, m * n);
    }
  }

  /** From the longer window on, the series is 1 exactly where the fast mean comes to lie above the slow one,
      having been at or below it at the bar before, -1 exactly where it comes to lie below, and 0 elsewhere. */
  lemma CrossesExactly(close: seq<real>, fast: nat, slow: nat, t: nat)
    requires fast > 0 && slow > 0 && t < |close|
    ensures var s := CrossoverSeries(close, fast, slow)[t];
            && (t < fast || t < slow ==> s == 0)
            && (fast <= t && slow <= t ==>
                  && (s == 1 <==> Lead(close, fast, slow, t - 1) <= 0.0 < Lead(close, fast, slow, t))
                  && (s == -1 <==> Lead(close, fast, slow, t - 1) >= 0.0 > Lead(close, fast, slow, t))
                  && -1 <= s <= 1)
  {
    hide RollingMean, Lead;
    if fast <= t && slow <= t {
      LeadIs(close, fast, slow, t - 1);
      LeadIs(close, fast, slow, t);
    }
  }

  /** The strategy buys, at full strength, exactly where the series is 1, and sells exactly where it is -1. */
  lemma CrossoverAnswers(fast: nat, slow: nat, panel: Panel, bar: nat, ticker: Ticker, h: History)
    requires fast > 0 && slow > 0 && ticker in panel && bar < |panel[ticker]|
    ensures var s := CrossoverSeries(panel[ticker], fast, slow)[bar];
            CrossoverAt(fast, slow, panel, bar, ticker, h) == if s == 0 then [] else [Signal(ticker, s as real, s)]
  {
    hide RollingMean;
  }

  lemma SeriesShifted(close: seq<real>, fast: nat, slow: nat, k: nat, t: nat)
    requires fast > 0 && slow > 0 && k <= t < |close| && fast <= t - k && slow <= t - k
    ensures CrossoverSeries(close[k..], fast, slow)[t - k] == CrossoverSeries(close, fast, slow)[t]
  {
    hide RollingMean;
    MeanShifted(close, fast, k, t);
    MeanShifted(close, slow, k, t);
    MeanShifted(close, fast, k, t - 1);
    MeanShifted(close, slow, k, t - 1);
  }

  lemma MeanShifted(close: seq<real>, window: nat, k: nat, t: nat)
    requires k <= t < |close| && 0 < window <= t - k + 1
    ensures RollingMean(close[k..], window, t - k) == RollingMean(close, window, t)
  {
    hide Sum;
    assert close[k..][t - k + 1 - window..t - k + 1] == close[t + 1 - window..t + 1];
  }

  /** Without the prepared series the strategy answers the same from the closes so far, of which it only
      looks at the last few. */
  lemma UnpreparedAgrees(fast: nat, slow: nat, panel: Panel, bar: nat, ticker: Ticker, h: History)
    requires fast > 0 && slow > 0 && ticker in panel && bar < |panel[ticker]|
    requires Closes(h, ticker) == panel[ticker][..bar + 1]
    ensures CrossoverAt(fast, slow, map[], bar, ticker, h) == CrossoverAt(fast, slow, panel, bar, ticker, h)
  {
    hide CrossoverSeries;
    var size := (if fast > slow then fast else slow) + 1;
    var closes := Closes(h, ticker);
    SeriesCausal(panel[ticker], closes, fast, slow, bar);
    if |closes| > size {
      SeriesShifted(closes, fast, slow, |closes| - size, bar);
    }
  }

  // ----- No look-ahead

  /** Momentum reads only the history it is handed, and so is causal. */
  lemma MomentumCausal(tickers: seq<Ticker>, lookback: nat, longs: int, shorts: int, listed: seq<Ticker>)
    requires lookback > 0
    ensures HistoryOnly(Momentum(tickers, lookback, longs, shorts))
    ensures Causal(Momentum(tickers, lookback, longs, shorts), listed)
  {
    hide RankSignals, Ranking, AgreeUpTo;
    HistoryOnlyCausal(Momentum(tickers, lookback, longs, shorts), listed);
  }

  /** So does mean reversion. */
  lemma MeanReversionCausal(window: nat, bands: real, deviation: seq<real> -> real, listed: seq<Ticker>)
    requires window > 0
    ensures HistoryOnly(MeanReversion(window, bands, deviation))
    ensures Causal(MeanReversion(window, bands, deviation), listed)
  {
    hide MeanReversionAt, AgreeUpTo;
    HistoryOnlyCausal(MeanReversion(window, bands, deviation), listed);
  }
}

/**
 * `BacktestService.runBacktest` (src/services/backtest.ts): load a generated price series per
 * ticker, then for every trading day in ascending order, for every ticker, for every
 * stock-selection node of that ticker, walk the strategy graph and execute its orders; close
 * each day with an equity point, and finish with the performance summary.
 *
 * The specification functions `RunStockNodes`, `RunTickers` and `RunDays` state what the three
 * nested loops compute; the methods `RunTicker`, `RunDay` and `BacktestService.RunBacktest`
 * perform them step by step. The walk from a stock-selection node needs a ghost `rank` under
 * which no cycle is reachable (see the module `BacktestGraph`).
 */
module Backtest {
  import opened Wrappers
  import opened Nodes
  import opened ConditionEvaluation
  import opened BacktestData
  import opened BacktestLedger
  import opened BacktestValuation
  import opened BacktestGraph
  import opened BacktestMetrics

  /**
   * `startDate` as a day number; `startTime` is the time of day of `startDate`, which every
   * generated bar's timestamp carries; `commission` is optional. `endDay` is the last day the
   * loop `currentDate <= endDate` reaches: `endDate`'s own day when its time of day is not earlier
   * than `startTime`, and the day before otherwise (the caller supplies it).
   */
  datatype Params = Params(startDay: int, endDay: int, startTime: TimeOfDay, initialCapital: real, commission: Option<real>)

  datatype BacktestResult = BacktestResult(
    trades: seq<Trade>,
    performance: Performance,
    equity: seq<EquityPoint>,
    success: bool,
    errors: seq<string>)

  /** `this.params.commission || 0`: the per-share commission. */
  function Rate(p: Params): real {
    p.commission.GetOr(0.0)
  }

  const NoStartNode := "No start node found"
  const NoTickers := "No tickers specified in stock selection nodes"

  /** `nodes.filter(node => node.type === 'stockSelection')` */
  function StockNodes(nodes: seq<Node>): (r: seq<Node>)
    ensures forall n :: n in r <==> n in nodes && n.kind == StockSelection
  {
    if nodes == [] then []
    else (if nodes[0].kind == StockSelection then [nodes[0]] else []) + StockNodes(nodes[1..])
  }

  /** `stockNodes.map(node => node.data.ticker).filter(Boolean)`: not de-duplicated. */
  function Tickers(stockNodes: seq<Node>): (r: seq<string>)
    ensures forall t :: t in r <==> t != "" && exists n :: n in stockNodes && n.data.ticker == t
  {
    if stockNodes == [] then []
    else
      var rest := Tickers(stockNodes[1..]);
      assert forall n :: n in stockNodes <==> n == stockNodes[0] || n in stockNodes[1..];
      (if stockNodes[0].data.ticker != "" then [stockNodes[0].data.ticker] else []) + rest
  }

  /** The series `mockHistoricalData` generates for the run's date range from one set of draws. */
  function Series(p: Params, s: SeriesDraws): seq<Bar> {
    MockSeries(p.startDay, p.endDay, p.startTime, StartPrice(s), 0, s)
  }

  /** `historicalData[ticker] = …` for every ticker in order; a repeated ticker's later series wins. */
  function Loaded(hd: map<string, seq<Bar>>, tickers: seq<string>, p: Params, draws: nat -> SeriesDraws)
    : (r: map<string, seq<Bar>>)
    ensures forall t :: t in r <==> t in hd || t in tickers
  {
    if tickers == [] then hd
    else
      var prev := Loaded(hd, tickers[..|tickers| - 1], p, draws);
      assert forall t :: t in tickers <==> t in tickers[..|tickers| - 1] || t == tickers[|tickers| - 1];
      prev[tickers[|tickers| - 1] := Series(p, draws(|tickers| - 1))]
  }

  /** Every bar of every loaded series has a close of at least 1. */
  ghost predicate Priced(hd: map<string, seq<Bar>>) {
    forall t, b :: t in hd && b in hd[t] ==> b.close >= 1.0
  }

  /** Every ticker of the run is non-empty and has a loaded series. */
  predicate Available(tickers: seq<string>, hd: map<string, seq<Bar>>) {
    forall t :: t in tickers ==> t in hd && t != ""
  }

  lemma AvailablePrefix(tickers: seq<string>, hd: map<string, seq<Bar>>, i: nat)
    requires Available(tickers, hd) && i <= |tickers|
    ensures Available(tickers[..i], hd)
  {
    assert forall t :: t in tickers[..i] ==> t in tickers;
  }

  /** Every series covers exactly the weekdays of the run's range. */
  ghost predicate CoversRange(hd: map<string, seq<Bar>>, p: Params) {
    forall t :: t in hd ==> (set b | b in hd[t] :: b.day) == WeekdaysIn(p.startDay, p.endDay)
  }

  /** Loading keeps every close at least 1 and every series on the weekdays of the range. */
  lemma {:induction false} LoadedSeries(hd: map<string, seq<Bar>>, tickers: seq<string>, p: Params, draws: nat -> SeriesDraws)
    requires Priced(hd) && CoversRange(hd, p)
    ensures Priced(Loaded(hd, tickers, p, draws)) && CoversRange(Loaded(hd, tickers, p, draws), p)
  {
    if tickers != [] {
      var s := draws(|tickers| - 1);
      LoadedSeries(hd, tickers[..|tickers| - 1], p, draws);
      MockSeriesBars(p.startDay, p.endDay, p.startTime, StartPrice(s), 0, s);
      MockSeriesCovers(p.startDay, p.endDay, p.startTime, StartPrice(s), 0, s);
    }
  }

  /** The set of days any loaded series has a bar on. */
  ghost function TradingDays(hd: map<string, seq<Bar>>): set<int> {
    set t, b | t in hd && b in hd[t] :: b.day
  }

  /** The days the series of `keys` have bars on. */
  ghost function DaysIn(hd: map<string, seq<Bar>>, keys: set<string>): set<int> {
    set t, b | t in keys && t in hd && b in hd[t] :: b.day
  }

  /** With at least one ticker, the trading days are exactly the weekdays from start to end date. */
  lemma LoadedTradingDays(tickers: seq<string>, p: Params, draws: nat -> SeriesDraws)
    requires tickers != []
    ensures TradingDays(Loaded(map[], tickers, p, draws)) == WeekdaysIn(p.startDay, p.endDay)
  {
    var hd: map<string, seq<Bar>> := Loaded(map[], tickers, p, draws);
    LoadedSeries(map[], tickers, p, draws);
    var t0 := tickers[0];
    assert t0 in hd;
    forall d | d in WeekdaysIn(p.startDay, p.endDay)
      ensures d in TradingDays(hd)
    {
      assert d in (set b: Bar | b in hd[t0] :: b.day);
      var b: Bar :| b in hd[t0] && b.day == d;
    }
    forall d | d in TradingDays(hd)
      ensures d in WeekdaysIn(p.startDay, p.endDay)
    {
      var t: string, b: Bar :| t in hd && b in hd[t] && b.day == d;
      assert d in (set b: Bar | b in hd[t] :: b.day);
    }
  }

  /**
   * `Object.values(historicalData).forEach(… tradingDays.add(day))`: the JavaScript `Set` keeps its
   * days once each, in the order they were first added.
   */
  method CollectTradingDays(hd: map<string, seq<Bar>>) returns (tradingDays: seq<int>)
    ensures Distinct(tradingDays)
    ensures forall d :: d in tradingDays <==> d in TradingDays(hd)
  {
    tradingDays := [];
    var remaining := hd.Keys;
    while remaining != {}
      invariant remaining <= hd.Keys && Distinct(tradingDays)
      invariant forall d :: d in tradingDays <==> d in DaysIn(hd, hd.Keys - remaining)
      decreases |remaining|
    {
      var ticker :| ticker in remaining;
      var tickerData := hd[ticker];
      ghost var before := tradingDays;
      for i := 0 to |tickerData|
        invariant Distinct(tradingDays)
        invariant forall d :: d in tradingDays <==> d in before || d in set b | b in tickerData[..i] :: b.day
      {
        assert forall b :: b in tickerData[..i + 1] <==> b in tickerData[..i] || b == tickerData[i];
        if tickerData[i].day !in tradingDays {
          tradingDays := tradingDays + [tickerData[i].day];
        }
      }
      assert tickerData[..|tickerData|] == tickerData;
      forall d ensures d in DaysIn(hd, hd.Keys - (remaining - {ticker}))
                       <==> d in DaysIn(hd, hd.Keys - remaining) || d in set b | b in tickerData :: b.day
      {
        if d in DaysIn(hd, hd.Keys - (remaining - {ticker})) {
          var t: string, b: Bar :| t in hd.Keys - (remaining - {ticker}) && t in hd && b in hd[t] && b.day == d;
          if t != ticker {
            assert d in DaysIn(hd, hd.Keys - remaining);
          } else {
            assert d in set b | b in tickerData :: b.day;
          }
        }
      }
      remaining := remaining - {ticker};
    }
    assert hd.Keys - remaining == hd.Keys;
  }

  predicate Distinct(days: seq<int>) {
    forall i, j :: 0 <= i < j < |days| ==> days[i] != days[j]
  }

  predicate Increasing(days: seq<int>) {
    forall i, j :: 0 <= i < j < |days| ==> days[i] < days[j]
  }

  /** Place `d` into an ascending sequence, unless it is already there. */
  function Insert(sorted: seq<int>, d: int): (r: seq<int>)
    requires Increasing(sorted)
    ensures Increasing(r)
    ensures forall x :: x in r <==> x in sorted || x == d
  {
    if sorted == [] || d < sorted[0] then [d] + sorted
    else if d == sorted[0] then sorted
    else
      var rest := Insert(sorted[1..], d);
      var r := [sorted[0]] + rest;
      forall i, j | 0 <= i < j < |r| ensures r[i] < r[j] {
        assert r[j] == rest[j - 1] && r[j] in rest;
        if i > 0 {
          assert r[i] == rest[i - 1];
        }
      }
      r
  }

  /** `[...tradingDays].sort()`: the days in ascending order, each once. */
  method SortDays(days: seq<int>) returns (sorted: seq<int>)
    ensures Increasing(sorted)
    ensures forall d :: d in sorted <==> d in days
  {
    sorted := [];
    for i := 0 to |days|
      invariant Increasing(sorted)
      invariant forall d :: d in sorted <==> d in days[..i]
    {
      assert forall d :: d in days[..i + 1] <==> d in days[..i] || d == days[i];
      sorted := Insert(sorted, days[i]);
    }
    assert days[..|days|] == days;
  }

  // ---------------------------------------------------------------- one ticker on one day

  /** A stock-selection node's successors are ranked whenever the node is. */
  lemma NextRanked(nodes: seq<Node>, edges: seq<Edge>, rank: map<string, nat>, id: string)
    requires Ranked(nodes, edges, rank) && id in rank
    ensures AllRanked(FindNextNodes(nodes, edges, id), rank)
  {
    forall n | n in FindNextNodes(nodes, edges, id)
      ensures n.id in rank
    {
      var e :| e in edges && e.source == id && FindNode(nodes, e.target) == Some(n);
    }
  }

  /** Every stock-selection node with a ticker is ranked; one without a ticker is never walked. */
  ghost predicate StockNodesRanked(stockNodes: seq<Node>, rank: map<string, nat>) {
    forall n :: n in stockNodes && n.data.ticker != "" ==> n.id in rank
  }

  /** The walks from every stock-selection node of the tick's ticker, in node order. */
  ghost function RunStockNodes(nodes: seq<Node>, edges: seq<Edge>, l: Ledger, stockNodes: seq<Node>, tick: Tick,
                               rate: real, rank: map<string, nat>): (r: Ledger)
    requires tick.price > 0.0 && tick.ticker != "" && PositionsPositive(l.positions)
    requires Ranked(nodes, edges, rank) && StockNodesRanked(stockNodes, rank)
    ensures PositionsPositive(r.positions) && Extends(l, r, tick)
  {
    if stockNodes == [] then l
    else
      var prefix := stockNodes[..|stockNodes| - 1];
      assert StockNodesRanked(prefix, rank) by {
        assert forall n :: n in prefix ==> n in stockNodes;
      }
      var m := RunStockNodes(nodes, edges, l, prefix, tick, rate, rank);
      var stockNode := stockNodes[|stockNodes| - 1];
      if stockNode.data.ticker != tick.ticker then m
      else
        NextRanked(nodes, edges, rank, stockNode.id);
        var r := Traverse(nodes, edges, m, FindNextNodes(nodes, edges, stockNode.id), tick, rate, rank);
        ExtendsTrans(l, m, r, tick);
        r
  }

  /** `for (const stockNode of stockNodes)`: skip other tickers, walk from the node's successors. */
  method RunTicker(nodes: seq<Node>, edges: seq<Edge>, stockNodes: seq<Node>, cash: real,
                   positions: map<string, Position>, trades: seq<Trade>, tick: Tick, rate: real,
                   ghost rank: map<string, nat>)
    returns (cash': real, positions': map<string, Position>, trades': seq<Trade>)
    requires tick.price > 0.0 && tick.ticker != "" && PositionsPositive(positions)
    requires Ranked(nodes, edges, rank) && StockNodesRanked(stockNodes, rank)
    ensures Ledger(cash', positions', trades') == RunStockNodes(nodes, edges, Ledger(cash, positions, trades), stockNodes, tick, rate, rank)
  {
    cash', positions', trades' := cash, positions, trades;
    for i := 0 to |stockNodes|
      invariant StockNodesRanked(stockNodes[..i], rank)
      invariant Ledger(cash', positions', trades')
                  == RunStockNodes(nodes, edges, Ledger(cash, positions, trades), stockNodes[..i], tick, rate, rank)
    {
      assert stockNodes[..i + 1][..i] == stockNodes[..i];
      assert StockNodesRanked(stockNodes[..i + 1], rank) by {
        assert forall n :: n in stockNodes[..i + 1] ==> n in stockNodes;
      }
      var stockNode := stockNodes[i];
      if stockNode.data.ticker != tick.ticker {
        continue;
      }
      var currentNodes := FindNextNodes(nodes, edges, stockNode.id);
      NextRanked(nodes, edges, rank, stockNode.id);
      cash', positions', trades' := FollowFlow(nodes, edges, cash', positions', trades', currentNodes, tick, rate, rank);
    }
    assert stockNodes[..|stockNodes|] == stockNodes;
  }

  // ---------------------------------------------------------------- one day

  /** `r` keeps every trade of `l` and adds only trades dated `day`. */
  predicate OnDay(l: Ledger, r: Ledger, day: int) {
    && |l.trades| <= |r.trades| && r.trades[..|l.trades|] == l.trades
    && forall i :: |l.trades| <= i < |r.trades| ==> r.trades[i].day == day
  }

  lemma OnDayTrans(a: Ledger, b: Ledger, c: Ledger, day: int)
    requires OnDay(a, b, day) && OnDay(b, c, day)
    ensures OnDay(a, c, day)
  {
    assert c.trades[..|a.trades|] == c.trades[..|b.trades|][..|a.trades|];
    forall i | |a.trades| <= i < |c.trades|
      ensures c.trades[i].day == day
    {
      if i < |b.trades| {
        assert c.trades[i] == c.trades[..|b.trades|][i] == b.trades[i];
      }
    }
  }

  /** Every ticker in order on `day`; a ticker without a bar that day is skipped. */
  ghost function RunTickers(nodes: seq<Node>, edges: seq<Edge>, hd: map<string, seq<Bar>>, l: Ledger, tickers: seq<string>,
                            stockNodes: seq<Node>, day: int, rate: real, rank: map<string, nat>): (r: Ledger)
    requires Priced(hd) && Available(tickers, hd) && PositionsPositive(l.positions)
    requires Ranked(nodes, edges, rank) && StockNodesRanked(stockNodes, rank)
    ensures PositionsPositive(r.positions) && OnDay(l, r, day)
  {
    if tickers == [] then l
    else
      AvailablePrefix(tickers, hd, |tickers| - 1);
      var m := RunTickers(nodes, edges, hd, l, tickers[..|tickers| - 1], stockNodes, day, rate, rank);
      var ticker := tickers[|tickers| - 1];
      match FindBar(hd[ticker], day)
      case None => m
      case Some(b) =>
        var r := RunStockNodes(nodes, edges, m, stockNodes, TickOf(ticker, b), rate, rank);
        OnDayTrans(l, m, r, day);
        r
  }

  /** One day: every ticker in order, then one equity point at that day's closes. */
  ghost function DayStep(nodes: seq<Node>, edges: seq<Edge>, hd: map<string, seq<Bar>>, s: (Ledger, seq<EquityPoint>),
                         day: int, tickers: seq<string>, stockNodes: seq<Node>, rate: real, rank: map<string, nat>)
    : (r: (Ledger, seq<EquityPoint>))
    requires Priced(hd) && Available(tickers, hd) && PositionsPositive(s.0.positions)
    requires Ranked(nodes, edges, rank) && StockNodesRanked(stockNodes, rank)
    ensures PositionsPositive(r.0.positions) && OnDay(s.0, r.0, day)
    ensures r.1 == s.1 + [EquityPoint(day, r.0.cash + HoldingsValue(r.0.positions, hd, day))]
  {
    var r := RunTickers(nodes, edges, hd, s.0, tickers, stockNodes, day, rate, rank);
    (r, s.1 + [EquityPoint(day, r.cash + HoldingsValue(r.positions, hd, day))])
  }

  /**
   * The body of `for (const day of sortedDays)`: run every ticker that has a bar that day,
   * then value the portfolio at that day's closes and push the equity point.
   */
  method RunDay(nodes: seq<Node>, edges: seq<Edge>, hd: map<string, seq<Bar>>, tickers: seq<string>, stockNodes: seq<Node>,
                cash: real, positions: map<string, Position>, trades: seq<Trade>, equity: seq<EquityPoint>, day: int,
                rate: real, ghost rank: map<string, nat>)
    returns (cash': real, positions': map<string, Position>, trades': seq<Trade>, equity': seq<EquityPoint>)
    requires Priced(hd) && Available(tickers, hd) && PositionsPositive(positions)
    requires Ranked(nodes, edges, rank) && StockNodesRanked(stockNodes, rank)
    ensures (Ledger(cash', positions', trades'), equity')
              == DayStep(nodes, edges, hd, (Ledger(cash, positions, trades), equity), day, tickers, stockNodes, rate, rank)
    ensures equity' == equity + [EquityPoint(day, cash' + HoldingsValue(positions', hd, day))]
  {
    cash', positions', trades' := cash, positions, trades;
    for i := 0 to |tickers|
      invariant Available(tickers[..i], hd)
      invariant Ledger(cash', positions', trades')
                  == RunTickers(nodes, edges, hd, Ledger(cash, positions, trades), tickers[..i], stockNodes, day, rate, rank)
    {
      AvailablePrefix(tickers, hd, i + 1);
      assert tickers[..i + 1][..i] == tickers[..i];
      var ticker := tickers[i];
      var dataPoint := FindBar(hd[ticker], day);
      if dataPoint.None? {
        continue;
      }
      var tick := TickOf(ticker, dataPoint.value);
      cash', positions', trades' := RunTicker(nodes, edges, stockNodes, cash', positions', trades', tick, rate, rank);
    }
    assert tickers[..|tickers|] == tickers;
    var dayEquity := MarkToMarket(cash', positions', hd, day);
    equity' := equity + [EquityPoint(day, dayEquity)];
  }

  // ---------------------------------------------------------------- all days

  /** The portfolio after the given days, and one equity point per day. */
  ghost function RunDays(nodes: seq<Node>, edges: seq<Edge>, hd: map<string, seq<Bar>>, l: Ledger, days: seq<int>,
                         tickers: seq<string>, stockNodes: seq<Node>, rate: real, rank: map<string, nat>)
    : (r: (Ledger, seq<EquityPoint>))
    requires Priced(hd) && Available(tickers, hd) && PositionsPositive(l.positions)
    requires Ranked(nodes, edges, rank) && StockNodesRanked(stockNodes, rank)
    ensures PositionsPositive(r.0.positions)
    ensures |r.1| == |days| && forall i :: 0 <= i < |days| ==> r.1[i].day == days[i]
  {
    if days == [] then (l, [])
    else
      var s := RunDays(nodes, edges, hd, l, days[..|days| - 1], tickers, stockNodes, rate, rank);
      DayStep(nodes, edges, hd, s, days[|days| - 1], tickers, stockNodes, rate, rank)
  }

  // ---------------------------------------------------------------- properties of a whole run

  /** The walks of one tick keep the trade log, the cash and the positions consistent. */
  lemma {:induction false} RunStockNodesValid(init: real, nodes: seq<Node>, edges: seq<Edge>, l: Ledger, stockNodes: seq<Node>,
                                              tick: Tick, rate: real, rank: map<string, nat>)
    requires tick.price > 0.0 && tick.ticker != "" && LedgerValid(init, rate, l)
    requires Ranked(nodes, edges, rank) && StockNodesRanked(stockNodes, rank)
    ensures LedgerValid(init, rate, RunStockNodes(nodes, edges, l, stockNodes, tick, rate, rank))
  {
    if stockNodes != [] {
      var prefix := stockNodes[..|stockNodes| - 1];
      assert StockNodesRanked(prefix, rank) by {
        assert forall n :: n in prefix ==> n in stockNodes;
      }
      RunStockNodesValid(init, nodes, edges, l, prefix, tick, rate, rank);
      var m := RunStockNodes(nodes, edges, l, prefix, tick, rate, rank);
      var stockNode := stockNodes[|stockNodes| - 1];
      if stockNode.data.ticker == tick.ticker {
        NextRanked(nodes, edges, rank, stockNode.id);
        TraverseValid(init, rate, nodes, edges, m, FindNextNodes(nodes, edges, stockNode.id), tick, rank);
      }
    }
  }

  lemma {:induction false} RunTickersValid(init: real, nodes: seq<Node>, edges: seq<Edge>, hd: map<string, seq<Bar>>,
                                           l: Ledger, tickers: seq<string>, stockNodes: seq<Node>, day: int, rate: real,
                                           rank: map<string, nat>)
    requires Priced(hd) && Available(tickers, hd) && LedgerValid(init, rate, l)
    requires Ranked(nodes, edges, rank) && StockNodesRanked(stockNodes, rank)
    ensures LedgerValid(init, rate, RunTickers(nodes, edges, hd, l, tickers, stockNodes, day, rate, rank))
  {
    if tickers != [] {
      var prefix := tickers[..|tickers| - 1];
      AvailablePrefix(tickers, hd, |tickers| - 1);
      RunTickersValid(init, nodes, edges, hd, l, prefix, stockNodes, day, rate, rank);
      var m := RunTickers(nodes, edges, hd, l, prefix, stockNodes, day, rate, rank);
      var ticker := tickers[|tickers| - 1];
      var bar := FindBar(hd[ticker], day);
      if bar.Some? {
        assert bar.value.close >= 1.0;
        RunStockNodesValid(init, nodes, edges, m, stockNodes, TickOf(ticker, bar.value), rate, rank);
      }
    }
  }

  /**
   * After any run of days from a consistent ledger the ledger is still consistent: the cash is
   * the initial capital plus the cash flow of every trade, each position is the net quantity
   * traded in its ticker and is positive, and every trade's value and commission match its
   * quantity, price and rate.
   */
  lemma {:induction false} RunDaysValid(init: real, nodes: seq<Node>, edges: seq<Edge>, hd: map<string, seq<Bar>>, l: Ledger,
                                        days: seq<int>, tickers: seq<string>, stockNodes: seq<Node>, rate: real,
                                        rank: map<string, nat>)
    requires Priced(hd) && Available(tickers, hd) && LedgerValid(init, rate, l)
    requires Ranked(nodes, edges, rank) && StockNodesRanked(stockNodes, rank)
    ensures LedgerValid(init, rate, RunDays(nodes, edges, hd, l, days, tickers, stockNodes, rate, rank).0)
  {
    if days != [] {
      var prefix := days[..|days| - 1];
      RunDaysValid(init, nodes, edges, hd, l, prefix, tickers, stockNodes, rate, rank);
      var s := RunDays(nodes, edges, hd, l, prefix, tickers, stockNodes, rate, rank);
      RunTickersValid(init, nodes, edges, hd, s.0, tickers, stockNodes, days[|days| - 1], rate, rank);
    }
  }

  /**
   * Over ascending days the run only appends to the log, every new trade is dated one of the
   * days, and the new trades are in day order.
   */
  lemma {:induction false} RunDaysChronological(nodes: seq<Node>, edges: seq<Edge>, hd: map<string, seq<Bar>>, l: Ledger,
                                                days: seq<int>, tickers: seq<string>, stockNodes: seq<Node>, rate: real,
                                                rank: map<string, nat>)
    requires Priced(hd) && Available(tickers, hd) && PositionsPositive(l.positions)
    requires Ranked(nodes, edges, rank) && StockNodesRanked(stockNodes, rank)
    requires Increasing(days)
    ensures var r := RunDays(nodes, edges, hd, l, days, tickers, stockNodes, rate, rank).0;
      && |l.trades| <= |r.trades| && r.trades[..|l.trades|] == l.trades
      && (forall i :: |l.trades| <= i < |r.trades| ==> r.trades[i].day in days)
      && (forall i, j :: |l.trades| <= i < j < |r.trades| ==> r.trades[i].day <= r.trades[j].day)
  {
    if days != [] {
      var prefix := days[..|days| - 1];
      var day := days[|days| - 1];
      assert Increasing(prefix);
      RunDaysChronological(nodes, edges, hd, l, prefix, tickers, stockNodes, rate, rank);
      var s := RunDays(nodes, edges, hd, l, prefix, tickers, stockNodes, rate, rank);
      var r := RunDays(nodes, edges, hd, l, days, tickers, stockNodes, rate, rank).0;
      assert r == DayStep(nodes, edges, hd, s, day, tickers, stockNodes, rate, rank).0;
      assert OnDay(s.0, r, day);
      var n := |s.0.trades|;
      assert r.trades[..|l.trades|] == r.trades[..n][..|l.trades|];
      forall i | |l.trades| <= i < |r.trades| ensures r.trades[i].day in days {
        if i < n {
          assert r.trades[i] == s.0.trades[i];
          assert forall x :: x in prefix ==> x in days;
        }
      }
      forall i, j | |l.trades| <= i < j < |r.trades| ensures r.trades[i].day <= r.trades[j].day {
        if j < n {
          assert r.trades[i] == s.0.trades[i] && r.trades[j] == s.0.trades[j];
        } else if i < n {
          assert r.trades[i] == s.0.trades[i];
          var k :| 0 <= k < |prefix| && prefix[k] == r.trades[i].day;
          assert days[k] < days[|days| - 1];
        }
      }
    }
  }

  /** The days of the equity curve. */
  function DaysOf(equity: seq<EquityPoint>): (r: seq<int>)
    ensures |r| == |equity| && forall i :: 0 <= i < |equity| ==> r[i] == equity[i].day
  {
    if equity == [] then [] else DaysOf(equity[..|equity| - 1]) + [equity[|equity| - 1].day]
  }

  class BacktestService {
    const nodes: seq<Node>
    const edges: seq<Edge>
    const params: Params
    var historicalData: map<string, seq<Bar>>

    /** Every loaded close is at least 1, and every loaded series covers the run's weekdays. */
    ghost predicate Valid()
      reads this
    {
      Priced(historicalData) && CoversRange(historicalData, params)
    }

    constructor(nodes: seq<Node>, edges: seq<Edge>, params: Params)
      ensures this.nodes == nodes && this.edges == edges && this.params == params
      ensures historicalData == map[] && Valid()
    {
      this.nodes := nodes;
      this.edges := edges;
      this.params := params;
      historicalData := map[];
    }

    /** Generate and store one series per ticker; the i-th ticker uses the draws `draws(i)`. */
    method LoadHistoricalData(tickers: seq<string>, draws: nat -> SeriesDraws)
      requires Valid()
      modifies this
      ensures historicalData == Loaded(old(historicalData), tickers, params, draws) && Valid()
    {
      ghost var hd0 := historicalData;
      for i := 0 to |tickers|
        invariant historicalData == Loaded(hd0, tickers[..i], params, draws)
      {
        assert tickers[..i + 1][..i] == tickers[..i];
        var data := MockHistoricalData(tickers[i], params.startDay, params.endDay, params.startTime, draws(i));
        historicalData := historicalData[tickers[i] := data];
      }
      assert tickers[..|tickers|] == tickers;
      LoadedSeries(hd0, tickers, params, draws);
    }

    /** The run: the two failure cases, then the day loop and the metrics. */
    method RunBacktest(draws: nat -> SeriesDraws, ghost rank: map<string, nat>) returns (result: BacktestResult)
      requires Valid()
      requires FindStart(nodes).Some? && Tickers(StockNodes(nodes)) != [] ==>
                 Ranked(nodes, edges, rank) && StockNodesRanked(StockNodes(nodes), rank)
      modifies this
      ensures FindStart(nodes).None? ==>
                result == BacktestResult([], InitialPerformance, [], false, [NoStartNode]) && historicalData == old(historicalData)
      ensures FindStart(nodes).Some? && Tickers(StockNodes(nodes)) == [] ==>
                result == BacktestResult([], InitialPerformance, [], false, [NoTickers]) && historicalData == old(historicalData)
      ensures FindStart(nodes).Some? && Tickers(StockNodes(nodes)) != [] ==>
                && historicalData == Loaded(old(historicalData), Tickers(StockNodes(nodes)), params, draws)
                && Outcome(nodes, edges, params, historicalData, result, rank)
    {
      result := BacktestResult([], InitialPerformance, [], false, []);
      var startNode := FindStart(nodes);
      if startNode.None? {
        result := result.(errors := result.errors + [NoStartNode]);
        return;
      }
      var stockNodes := StockNodes(nodes);
      var tickers := Tickers(stockNodes);
      if |tickers| == 0 {
        result := result.(errors := result.errors + [NoTickers]);
        return;
      }
      ghost var hd0 := historicalData;
      LoadHistoricalData(tickers, draws);
      assert historicalData == Loaded(hd0, tickers, params, draws);
      var rate := Rate(params);
      var trades, equity := Simulate(nodes, edges, historicalData, tickers, stockNodes, params.initialCapital, rate, rank);
      var performance := ComputePerformance(params.initialCapital, trades, equity);
      result := BacktestResult(trades, performance, equity, true, []);
    }
  }

  /**
   * From the loaded data on: collect and sort the trading days, then run every day from the
   * initial capital and an empty portfolio, pushing one equity point per day.
   */
  method Simulate(nodes: seq<Node>, edges: seq<Edge>, hd: map<string, seq<Bar>>, tickers: seq<string>,
                  stockNodes: seq<Node>, initialCapital: real, rate: real, ghost rank: map<string, nat>)
    returns (trades: seq<Trade>, equity: seq<EquityPoint>)
    requires Priced(hd) && Available(tickers, hd)
    requires Ranked(nodes, edges, rank) && StockNodesRanked(stockNodes, rank)
    ensures Increasing(DaysOf(equity)) && (forall d :: d in DaysOf(equity) <==> d in TradingDays(hd))
    ensures var (l, eq) := RunDays(nodes, edges, hd, Ledger(initialCapital, map[], []), DaysOf(equity), tickers,
                                   stockNodes, rate, rank);
            trades == l.trades && equity == eq
  {
    var tradingDays := CollectTradingDays(hd);
    var sortedDays := SortDays(tradingDays);
    trades, equity := RunDaysLoop(nodes, edges, hd, tickers, stockNodes, sortedDays, initialCapital, rate, rank);
    assert DaysOf(equity) == sortedDays;
  }

  /** `for (const day of sortedDays)`, starting from the initial capital and an empty portfolio. */
  method RunDaysLoop(nodes: seq<Node>, edges: seq<Edge>, hd: map<string, seq<Bar>>, tickers: seq<string>,
                     stockNodes: seq<Node>, sortedDays: seq<int>, initialCapital: real, rate: real,
                     ghost rank: map<string, nat>)
    returns (trades: seq<Trade>, equity: seq<EquityPoint>)
    requires Priced(hd) && Available(tickers, hd)
    requires Ranked(nodes, edges, rank) && StockNodesRanked(stockNodes, rank)
    ensures var (l, eq) := RunDays(nodes, edges, hd, Ledger(initialCapital, map[], []), sortedDays, tickers,
                                   stockNodes, rate, rank);
            trades == l.trades && equity == eq
  {
    var cash := initialCapital;
    var positions: map<string, Position> := map[];
    trades, equity := [], [];
    for i := 0 to |sortedDays|
      invariant (Ledger(cash, positions, trades), equity)
                  == RunDays(nodes, edges, hd, Ledger(initialCapital, map[], []), sortedDays[..i], tickers, stockNodes, rate, rank)
    {
      assert sortedDays[..i + 1][..i] == sortedDays[..i];
      ghost var before := RunDays(nodes, edges, hd, Ledger(initialCapital, map[], []), sortedDays[..i], tickers,
                                  stockNodes, rate, rank);
      assert PositionsPositive(positions) by { assert positions == before.0.positions; }
      cash, positions, trades, equity := RunDay(nodes, edges, hd, tickers, stockNodes, cash, positions, trades, equity,
                                                sortedDays[i], rate, rank);
      assert RunDays(nodes, edges, hd, Ledger(initialCapital, map[], []), sortedDays[..i + 1], tickers, stockNodes, rate, rank)
               == DayStep(nodes, edges, hd, before, sortedDays[i], tickers, stockNodes, rate, rank);
    }
    assert sortedDays[..|sortedDays|] == sortedDays;
  }

  /**
   * A successful run: one equity point per trading day in ascending order, trades and equity as
   * `RunDays` gives them, and the metrics of that log and curve.
   */
  ghost predicate Outcome(nodes: seq<Node>, edges: seq<Edge>, p: Params, hd: map<string, seq<Bar>>, result: BacktestResult,
                          rank: map<string, nat>)
  {
    var tickers := Tickers(StockNodes(nodes));
    var days := DaysOf(result.equity);
    && result.success && result.errors == []
    && Increasing(days) && (forall d :: d in days <==> d in TradingDays(hd))
    && Priced(hd) && Available(tickers, hd)
    && Ranked(nodes, edges, rank) && StockNodesRanked(StockNodes(nodes), rank)
    && var (l, equity) := RunDays(nodes, edges, hd, Ledger(p.initialCapital, map[], []), days, tickers, StockNodes(nodes),
                                  Rate(p), rank);
       && result.trades == l.trades && result.equity == equity
       && result.performance.totalReturn == FinalEquity(p.initialCapital, equity) - p.initialCapital
       && result.performance.totalReturnPct == TotalReturnPct(result.performance.totalReturn, p.initialCapital)
       && result.performance.numberOfTrades == |l.trades|
       && result.performance.winRate == WinRate(l.trades)
       && result.performance.maxDrawdown == MaxDrawdownPct(p.initialCapital, equity)
       && result.performance.annualizedReturn == 0.0 && result.performance.sharpeRatio == 0.0
       && result.performance.profitFactor == 0.0
  }

  /**
   * What a successful run guarantees about its log: the trades are in day order, each on a
   * trading day, each with value `price * quantity` and commission `rate * quantity` for a
   * positive quantity, and the summary counts every one of them.
   */
  lemma OutcomeTrades(nodes: seq<Node>, edges: seq<Edge>, p: Params, hd: map<string, seq<Bar>>, result: BacktestResult,
                      rank: map<string, nat>)
    requires Outcome(nodes, edges, p, hd, result, rank)
    ensures forall i, j :: 0 <= i < j < |result.trades| ==> result.trades[i].day <= result.trades[j].day
    ensures forall i :: 0 <= i < |result.trades| ==> result.trades[i].day in TradingDays(hd)
    ensures forall i :: 0 <= i < |result.trades| ==> TradeWellFormed(result.trades[i], Rate(p))
    ensures result.performance.numberOfTrades == |result.trades|
  {
    var tickers := Tickers(StockNodes(nodes));
    var days := DaysOf(result.equity);
    var l0 := Ledger(p.initialCapital, map[], []);
    InitialLedgerValid(p.initialCapital, Rate(p));
    RunDaysValid(p.initialCapital, nodes, edges, hd, l0, days, tickers, StockNodes(nodes), Rate(p), rank);
    RunDaysChronological(nodes, edges, hd, l0, days, tickers, StockNodes(nodes), Rate(p), rank);
  }

  /** A successful run of freshly loaded data has one equity point per weekday of the range, in order. */
  lemma OutcomeEquityDays(nodes: seq<Node>, edges: seq<Edge>, p: Params, draws: nat -> SeriesDraws, result: BacktestResult,
                          rank: map<string, nat>)
    requires Tickers(StockNodes(nodes)) != []
    requires Outcome(nodes, edges, p, Loaded(map[], Tickers(StockNodes(nodes)), p, draws), result, rank)
    ensures Increasing(DaysOf(result.equity))
    ensures forall d :: d in DaysOf(result.equity) <==> d in WeekdaysIn(p.startDay, p.endDay)
  {
    LoadedTradingDays(Tickers(StockNodes(nodes)), p, draws);
  }

  /** `runBacktest(nodes, edges, params)`: a fresh service, then its run. */
  method RunBacktestFor(nodes: seq<Node>, edges: seq<Edge>, params: Params, draws: nat -> SeriesDraws,
                        ghost rank: map<string, nat>)
    returns (result: BacktestResult)
    requires FindStart(nodes).Some? && Tickers(StockNodes(nodes)) != [] ==>
               Ranked(nodes, edges, rank) && StockNodesRanked(StockNodes(nodes), rank)
    ensures FindStart(nodes).None? ==> result == BacktestResult([], InitialPerformance, [], false, [NoStartNode])
    ensures FindStart(nodes).Some? && Tickers(StockNodes(nodes)) == [] ==>
              result == BacktestResult([], InitialPerformance, [], false, [NoTickers])
    ensures FindStart(nodes).Some? && Tickers(StockNodes(nodes)) != [] ==>
              Outcome(nodes, edges, params, Loaded(map[], Tickers(StockNodes(nodes)), params, draws), result, rank)
  {
    var service := new BacktestService(nodes, edges, params);
    result := service.RunBacktest(draws, rank);
  }
}

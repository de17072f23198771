/**
 * The strategy walk of `runBacktest` (src/services/backtest.ts): from a stock-selection node the
 * engine keeps a frontier of nodes, evaluates condition nodes against the day's bar and follows
 * their `outTrue` or `outFalse` edges, executes order nodes, and passes through every other
 * node, until the frontier is empty. There is no visited set: a node reached along two paths is
 * processed twice.
 *
 * The walk terminates only when no cycle is reachable; the model takes a ghost `rank` map that
 * strictly decreases along every edge out of a ranked node, which gives the `while` loop its
 * termination measure.
 */
module BacktestGraph {
  import opened Wrappers
  import opened Nodes
  import opened ConditionEvaluation
  import opened BacktestData
  import opened BacktestLedger

  /** One ticker on one trading day: the bar's close is both the snapshot price and the fill price. */
  datatype Tick = Tick(ticker: string, day: int, price: real, market: MarketData, time: TimeOfDay)

  /** The snapshot built from a bar: price and close, no indicators, the bar's timestamp. */
  function TickOf(ticker: string, b: Bar): (t: Tick)
    ensures t.price == b.close && t.day == b.day && t.market.price == Some(b.close)
    ensures t.market.indicators == map[] && t.market.timestamp == Some(b.time)
  {
    Tick(ticker, b.day, b.close, MarketData(Some(b.close), map[], Some(b.time)), b.time)
  }

  /** `edges.map(edge => nodes.find(…)).filter(Boolean)`: the target nodes in edge order, unknown ids dropped. */
  function Targets(nodes: seq<Node>, es: seq<Edge>): (r: seq<Node>)
    ensures |r| <= |es|
    ensures forall n :: n in r <==> exists e :: e in es && FindNode(nodes, e.target) == Some(n)
  {
    if es == [] then []
    else
      var rest := Targets(nodes, es[1..]);
      assert forall e :: e in es[1..] ==> e in es;
      assert forall e :: e in es ==> e == es[0] || e in es[1..];
      match FindNode(nodes, es[0].target)
      case Some(n) => [n] + rest
      case None => rest
  }

  /** The nodes the edges out of `id` lead to. */
  function FindNextNodes(nodes: seq<Node>, edges: seq<Edge>, id: string): (r: seq<Node>)
    ensures forall n :: n in r <==> exists e :: e in edges && e.source == id && FindNode(nodes, e.target) == Some(n)
  {
    Targets(nodes, OutgoingEdges(edges, id))
  }

  /** The source handle a condition's outcome selects. */
  function HandleFor(condition: bool): string {
    if condition then "outTrue" else "outFalse"
  }

  /** The edges out of `id` on the handle the outcome selects, in edge order. */
  function ConditionalEdges(edges: seq<Edge>, id: string, condition: bool): (r: seq<Edge>)
    ensures forall e :: e in r <==> e in edges && e.source == id && e.sourceHandle == Some(HandleFor(condition))
  {
    if edges == [] then []
    else
      var e := edges[0];
      (if e.source == id && e.sourceHandle == Some(HandleFor(condition)) then [e] else [])
        + ConditionalEdges(edges[1..], id, condition)
  }

  /** The nodes a condition node leads to for the given outcome. */
  function FindNextNodesWithCondition(nodes: seq<Node>, edges: seq<Edge>, id: string, condition: bool): (r: seq<Node>)
    ensures forall n :: n in r <==>
              exists e :: e in edges && e.source == id && e.sourceHandle == Some(HandleFor(condition))
                          && FindNode(nodes, e.target) == Some(n)
  {
    Targets(nodes, ConditionalEdges(edges, id, condition))
  }

  /** What visiting `n` adds to the next frontier. */
  function Successors(nodes: seq<Node>, edges: seq<Edge>, n: Node, tick: Tick): (r: seq<Node>)
    // a condition node follows only the handle its outcome selects
    ensures n.kind == Condition ==>
              r == FindNextNodesWithCondition(nodes, edges, n.id, EvaluateCondition(n.data.condition, tick.market, tick.time))
    // an order node ends its path
    ensures n.kind == OrderExecution ==> r == []
    // every other node passes through to all its targets
    ensures n.kind in {Start, StockSelection} ==> r == FindNextNodes(nodes, edges, n.id)
    // whatever the kind, only targets of edges out of `n` that name a known node
    ensures forall m :: m in r ==> exists e :: e in edges && e.source == n.id && FindNode(nodes, e.target) == Some(m)
  {
    match n.kind
    case Condition => FindNextNodesWithCondition(nodes, edges, n.id, EvaluateCondition(n.data.condition, tick.market, tick.time))
    case OrderExecution => []
    case _ => FindNextNodes(nodes, edges, n.id)
  }

  /** `r` keeps every trade of `l` and adds only trades of the tick's ticker, day and close. */
  predicate Extends(l: Ledger, r: Ledger, tick: Tick) {
    && |l.trades| <= |r.trades| && r.trades[..|l.trades|] == l.trades
    && forall i :: |l.trades| <= i < |r.trades| ==>
         r.trades[i].day == tick.day && r.trades[i].ticker == tick.ticker && r.trades[i].price == tick.price
  }

  lemma ExtendsTrans(a: Ledger, b: Ledger, c: Ledger, tick: Tick)
    requires Extends(a, b, tick) && Extends(b, c, tick)
    ensures Extends(a, c, tick)
  {
    assert c.trades[..|a.trades|] == c.trades[..|b.trades|][..|a.trades|];
    forall i | |a.trades| <= i < |c.trades|
      ensures c.trades[i].day == tick.day && c.trades[i].ticker == tick.ticker && c.trades[i].price == tick.price
    {
      if i < |b.trades| {
        assert c.trades[i] == c.trades[..|b.trades|][i] == b.trades[i];
      }
    }
  }

  /** What visiting `n` does to the portfolio: only an order node trades, at the tick's close. */
  function Visit(l: Ledger, n: Node, tick: Tick, rate: real): (r: Ledger)
    requires tick.price > 0.0 && PositionsPositive(l.positions)
    ensures PositionsPositive(r.positions) && Extends(l, r, tick)
    ensures n.kind != OrderExecution ==> r == l
  {
    if n.kind == OrderExecution then ApplyOrder(l, n.data.order, tick.ticker, tick.day, tick.price, rate) else l
  }

  /** One pass over the frontier in order: the portfolio after it and the next frontier. */
  function ProcessFrontier(nodes: seq<Node>, edges: seq<Edge>, l: Ledger, frontier: seq<Node>, tick: Tick, rate: real)
    : (r: (Ledger, seq<Node>))
    requires tick.price > 0.0 && PositionsPositive(l.positions)
    ensures PositionsPositive(r.0.positions) && Extends(l, r.0, tick)
  {
    if frontier == [] then (l, [])
    else
      var (m, next) := ProcessFrontier(nodes, edges, l, frontier[..|frontier| - 1], tick, rate);
      var n := frontier[|frontier| - 1];
      var v := Visit(m, n, tick, rate);
      ExtendsTrans(l, m, v, tick);
      (v, next + Successors(nodes, edges, n, tick))
  }

  /** `rank` strictly decreases along every edge from a ranked node to a known node. */
  ghost predicate Ranked(nodes: seq<Node>, edges: seq<Edge>, rank: map<string, nat>) {
    forall e :: e in edges && e.source in rank && FindNode(nodes, e.target).Some? ==>
      e.target in rank && rank[e.target] < rank[e.source]
  }

  ghost predicate AllRanked(frontier: seq<Node>, rank: map<string, nat>) {
    forall n :: n in frontier ==> n.id in rank
  }

  /** The largest rank in the frontier. */
  ghost function MaxRank(frontier: seq<Node>, rank: map<string, nat>): (r: nat)
    requires AllRanked(frontier, rank)
    ensures forall n :: n in frontier ==> rank[n.id] <= r
    ensures frontier != [] ==> exists n :: n in frontier && rank[n.id] == r
  {
    if frontier == [] then 0
    else
      var m := MaxRank(frontier[..|frontier| - 1], rank);
      var last := rank[frontier[|frontier| - 1].id];
      assert forall n :: n in frontier ==> n in frontier[..|frontier| - 1] || n == frontier[|frontier| - 1];
      assert forall n :: n in frontier[..|frontier| - 1] ==> n in frontier;
      if last > m then last else m
  }

  /** Every node of the next frontier is ranked strictly below the whole current frontier's maximum. */
  lemma {:induction false} FrontierBound(nodes: seq<Node>, edges: seq<Edge>, l: Ledger, frontier: seq<Node>, tick: Tick,
                                         rate: real, rank: map<string, nat>)
    requires tick.price > 0.0 && PositionsPositive(l.positions)
    requires Ranked(nodes, edges, rank) && AllRanked(frontier, rank)
    ensures var next := ProcessFrontier(nodes, edges, l, frontier, tick, rate).1;
            forall n :: n in next ==> n.id in rank && rank[n.id] < MaxRank(frontier, rank)
  {
    if frontier != [] {
      var prefix := frontier[..|frontier| - 1];
      var p := frontier[|frontier| - 1];
      assert AllRanked(prefix, rank) by {
        assert forall n :: n in prefix ==> n in frontier;
      }
      FrontierBound(nodes, edges, l, prefix, tick, rate, rank);
      var m := ProcessFrontier(nodes, edges, l, prefix, tick, rate).0;
      var next := ProcessFrontier(nodes, edges, l, prefix, tick, rate).1;
      assert MaxRank(prefix, rank) <= MaxRank(frontier, rank);
      forall n | n in Successors(nodes, edges, p, tick)
        ensures n.id in rank && rank[n.id] < MaxRank(frontier, rank)
      {
        var e :| e in edges && e.source == p.id && FindNode(nodes, e.target) == Some(n);
        assert n.id == e.target;
      }
    }
  }

  /** The whole walk: process frontiers until one is empty. */
  ghost function Traverse(nodes: seq<Node>, edges: seq<Edge>, l: Ledger, frontier: seq<Node>, tick: Tick, rate: real,
                          rank: map<string, nat>): (r: Ledger)
    requires tick.price > 0.0 && PositionsPositive(l.positions)
    requires Ranked(nodes, edges, rank) && AllRanked(frontier, rank)
    ensures PositionsPositive(r.positions) && Extends(l, r, tick)
    decreases if frontier == [] then 0 else MaxRank(frontier, rank) + 1
  {
    if frontier == [] then l
    else
      var (m, next) := ProcessFrontier(nodes, edges, l, frontier, tick, rate);
      FrontierBound(nodes, edges, l, frontier, tick, rate, rank);
      assert next != [] ==> MaxRank(next, rank) < MaxRank(frontier, rank);
      var r := Traverse(nodes, edges, m, next, tick, rate, rank);
      ExtendsTrans(l, m, r, tick);
      r
  }

  /** A pass over the frontier keeps the accounting invariant. */
  lemma {:induction false} ProcessFrontierValid(init: real, rate: real, nodes: seq<Node>, edges: seq<Edge>, l: Ledger,
                                                frontier: seq<Node>, tick: Tick)
    requires tick.price > 0.0 && LedgerValid(init, rate, l)
    ensures LedgerValid(init, rate, ProcessFrontier(nodes, edges, l, frontier, tick, rate).0)
  {
    if frontier != [] {
      var prefix := frontier[..|frontier| - 1];
      ProcessFrontierValid(init, rate, nodes, edges, l, prefix, tick);
      var m := ProcessFrontier(nodes, edges, l, prefix, tick, rate).0;
      var n := frontier[|frontier| - 1];
      if n.kind == OrderExecution {
        ApplyOrderValid(init, rate, m, n.data.order, tick.ticker, tick.day, tick.price);
      }
    }
  }

  /** The whole walk keeps the accounting invariant. */
  lemma {:induction false} TraverseValid(init: real, rate: real, nodes: seq<Node>, edges: seq<Edge>, l: Ledger,
                                         frontier: seq<Node>, tick: Tick, rank: map<string, nat>)
    requires tick.price > 0.0 && LedgerValid(init, rate, l)
    requires Ranked(nodes, edges, rank) && AllRanked(frontier, rank)
    ensures LedgerValid(init, rate, Traverse(nodes, edges, l, frontier, tick, rate, rank))
    decreases if frontier == [] then 0 else MaxRank(frontier, rank) + 1
  {
    if frontier != [] {
      var (m, next) := ProcessFrontier(nodes, edges, l, frontier, tick, rate);
      ProcessFrontierValid(init, rate, nodes, edges, l, frontier, tick);
      FrontierBound(nodes, edges, l, frontier, tick, rate, rank);
      assert next != [] ==> MaxRank(next, rank) < MaxRank(frontier, rank);
      TraverseValid(init, rate, nodes, edges, m, next, tick, rank);
    }
  }

  /**
   * The inner `for` over `currentNodes`: evaluate conditions and follow the selected edges,
   * execute orders, pass through every other node.
   */
  method ProcessNodes(nodes: seq<Node>, edges: seq<Edge>, cash: real, positions: map<string, Position>,
                      trades: seq<Trade>, currentNodes: seq<Node>, tick: Tick, rate: real)
    returns (cash': real, positions': map<string, Position>, trades': seq<Trade>, nextNodes: seq<Node>)
    requires tick.price > 0.0 && PositionsPositive(positions)
    ensures (Ledger(cash', positions', trades'), nextNodes)
              == ProcessFrontier(nodes, edges, Ledger(cash, positions, trades), currentNodes, tick, rate)
  {
    cash', positions', trades', nextNodes := cash, positions, trades, [];
    for i := 0 to |currentNodes|
      invariant (Ledger(cash', positions', trades'), nextNodes)
                  == ProcessFrontier(nodes, edges, Ledger(cash, positions, trades), currentNodes[..i], tick, rate)
    {
      assert currentNodes[..i + 1][..i] == currentNodes[..i];
      var node := currentNodes[i];
      ghost var before := Ledger(cash', positions', trades');
      ghost var succ := Successors(nodes, edges, node, tick);
      match node.kind {
        case Condition =>
          var conditionResult := EvaluateCondition(node.data.condition, tick.market, tick.time);
          nextNodes := nextNodes + FindNextNodesWithCondition(nodes, edges, node.id, conditionResult);
          assert Visit(before, node, tick, rate) == before;
        case OrderExecution =>
          cash', positions', trades' :=
            ExecuteOrder(cash', positions', trades', node.data.order, tick.ticker, tick.day, tick.price, rate);
          assert succ == [] && nextNodes + succ == nextNodes;
        case _ =>
          nextNodes := nextNodes + FindNextNodes(nodes, edges, node.id);
          assert Visit(before, node, tick, rate) == before;
      }
    }
    assert currentNodes[..|currentNodes|] == currentNodes;
  }

  /** The `while (currentNodes.length > 0)` walk from one stock-selection node's successors. */
  method FollowFlow(nodes: seq<Node>, edges: seq<Edge>, cash: real, positions: map<string, Position>,
                    trades: seq<Trade>, start: seq<Node>, tick: Tick, rate: real, ghost rank: map<string, nat>)
    returns (cash': real, positions': map<string, Position>, trades': seq<Trade>)
    requires tick.price > 0.0 && PositionsPositive(positions)
    requires Ranked(nodes, edges, rank) && AllRanked(start, rank)
    ensures Ledger(cash', positions', trades') == Traverse(nodes, edges, Ledger(cash, positions, trades), start, tick, rate, rank)
  {
    cash', positions', trades' := cash, positions, trades;
    var currentNodes := start;
    while currentNodes != []
      invariant PositionsPositive(positions') && AllRanked(currentNodes, rank)
      invariant Traverse(nodes, edges, Ledger(cash', positions', trades'), currentNodes, tick, rate, rank)
                  == Traverse(nodes, edges, Ledger(cash, positions, trades), start, tick, rate, rank)
      decreases if currentNodes == [] then 0 else MaxRank(currentNodes, rank) + 1
    {
      ghost var before := Ledger(cash', positions', trades');
      var nextNodes;
      cash', positions', trades', nextNodes := ProcessNodes(nodes, edges, cash', positions', trades', currentNodes, tick, rate);
      FrontierBound(nodes, edges, before, currentNodes, tick, rate, rank);
      assert nextNodes != [] ==> MaxRank(nextNodes, rank) < MaxRank(currentNodes, rank);
      currentNodes := nextNodes;
    }
  }
}

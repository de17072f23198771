/**
 * The example algorithm every new canvas starts with (src/utils/initialFlowData.ts): a start
 * node, a stock selection of AAPL, the condition `price > 150`, and a market buy of 10 shares on
 * the condition's `outTrue` handle.
 */
module InitialFlow {
  import opened Wrappers
  import opened Nodes
  import opened ConditionEvaluation
  import opened BacktestLedger
  import opened BacktestGraph
  import AlgorithmValidation

  const NoCondition := ConditionData(None, None, None, "", "")
  const NoOrder := OrderData(None, None, None)

  const PriceAbove150 := ConditionData(Some(PriceCondition), Some(Gt), Some(150.0), "", "")
  const BuyTen := OrderData(Some(Market), Some(Buy), Some(Shares(10)))

  const StartOne := Node("start-1", Start, NodeData("Start", "", NoCondition, NoOrder))
  const StockOne := Node("stock-1", StockSelection, NodeData("Select Stock", "AAPL", NoCondition, NoOrder))
  const ConditionOne := Node("condition-1", Condition, NodeData("Set Conditions", "", PriceAbove150, NoOrder))
  const OrderOne := Node("order-1", OrderExecution, NodeData("Execute Order", "", NoCondition, BuyTen))

  const InitialNodes := [StartOne, StockOne, ConditionOne, OrderOne]

  const InitialEdges := [
    Edge("e-start-1-stock-1", "start-1", "stock-1", Some("out")),
    Edge("e-stock-1-condition-1", "stock-1", "condition-1", Some("out")),
    Edge("e-condition-1-order-1", "condition-1", "order-1", Some("outTrue"))
  ]

  /** Each node is ranked by the length of the longest path leaving it. */
  const FlowRank: map<string, nat> := map["start-1" := 3, "stock-1" := 2, "condition-1" := 1, "order-1" := 0]

  /** The three edges of the example, one by one. */
  lemma InitialEdgesAre(e: Edge)
    requires e in InitialEdges
    ensures e == InitialEdges[0] || e == InitialEdges[1] || e == InitialEdges[2]
  {
  }

  /** Every edge of the example descends in rank. */
  lemma EdgesDescend()
    ensures forall e :: e in InitialEdges ==> e.source in FlowRank && e.target in FlowRank && FlowRank[e.target] < FlowRank[e.source]
  {
    assert FlowRank["start-1"] == 3 && FlowRank["stock-1"] == 2;
    assert FlowRank["condition-1"] == 1 && FlowRank["order-1"] == 0;
    forall e | e in InitialEdges
      ensures e.source in FlowRank && e.target in FlowRank && FlowRank[e.target] < FlowRank[e.source]
    {
      InitialEdgesAre(e);
    }
  }

  /** The example graph is ranked, so every walk through it ends. */
  lemma InitialFlowRanked()
    ensures Ranked(InitialNodes, InitialEdges, FlowRank)
    ensures AlgorithmValidation.Ranked(InitialEdges, FlowRank)
  {
    EdgesDescend();
  }

  /** The example's first start node is `start-1`. */
  lemma InitialFlowStart()
    ensures FindStart(InitialNodes) == Some(StartOne)
  {
    assert InitialNodes[0] == StartOne;
  }

  /** Every node but the start has an incoming edge, and every node but the order an outgoing one. */
  lemma InitialFlowConnected()
    ensures AlgorithmValidation.OrphanWarnings(InitialNodes, InitialEdges) == []
  {
    var es := InitialEdges;
    var ws := AlgorithmValidation.OrphanWarnings(InitialNodes, es);
    assert ws != [] ==> ws[0] in ws;
    assert es[0] in es && es[1] in es && es[2] in es;
    AlgorithmValidation.OrphanWarningsExact(InitialNodes, es);
    forall i, w | 0 <= i < |InitialNodes| ensures !AlgorithmValidation.OrphanReason(InitialNodes[i], es, w) {
    }
    assert forall w :: w !in ws;
  }

  /** The stock node has a ticker, the condition all three fields and the order all three fields. */
  lemma InitialFlowConfigured()
    ensures AlgorithmValidation.ConfigWarnings(InitialNodes) == []
  {
    var ws := AlgorithmValidation.ConfigWarnings(InitialNodes);
    assert ws != [] ==> ws[0] in ws;
    AlgorithmValidation.ConfigWarningsExact(InitialNodes);
    forall i, w | 0 <= i < |InitialNodes| ensures !AlgorithmValidation.ConfigReason(InitialNodes[i], w) {
    }
    assert forall w :: w !in ws;
  }

  /** Validation of the example reports no error and no warning. */
  method ValidateInitialFlow() returns (r: AlgorithmValidation.ValidationResult)
    ensures r.isValid && r.errors == [] && r.warnings == []
  {
    r := AlgorithmValidation.ValidateAlgorithm(InitialNodes, InitialEdges);
    InitialFlowStart();
    InitialFlowRanked();
    AlgorithmValidation.RankedReachesNoCycle(InitialEdges, FlowRank, "start-1");
    InitialFlowConnected();
    InitialFlowConfigured();
  }

  /** A single edge to a known node leads to that node. */
  lemma TargetsOne(nodes: seq<Node>, e: Edge, n: Node)
    requires FindNode(nodes, e.target) == Some(n)
    ensures Targets(nodes, [e]) == [n]
  {
    assert [e][1..] == [];
  }

  lemma StockEdges()
    ensures OutgoingEdges(InitialEdges, "stock-1") == [InitialEdges[1]]
  {
    var es := InitialEdges;
    assert OutgoingEdges(es[2..], "stock-1") == [];
    assert OutgoingEdges(es[1..], "stock-1") == [es[1]] + OutgoingEdges(es[2..], "stock-1");
  }

  lemma ConditionFound()
    ensures FindNode(InitialNodes, "condition-1") == Some(ConditionOne)
  {
    assert InitialNodes[2] == ConditionOne;
  }

  lemma OrderFound()
    ensures FindNode(InitialNodes, "order-1") == Some(OrderOne)
  {
    assert InitialNodes[3] == OrderOne;
  }

  /** The stock node leads to the condition node only. */
  lemma StockLeadsToCondition()
    ensures FindNextNodes(InitialNodes, InitialEdges, "stock-1") == [ConditionOne]
  {
    StockEdges();
    ConditionFound();
    TargetsOne(InitialNodes, InitialEdges[1], ConditionOne);
  }

  lemma ConditionEdges(above: bool)
    ensures ConditionalEdges(InitialEdges, "condition-1", above) == if above then [InitialEdges[2]] else []
  {
    var es := InitialEdges;
    assert ConditionalEdges(es[3..], "condition-1", above) == [];
    assert ConditionalEdges(es[2..], "condition-1", above)
        == (if above then [es[2]] else []) + ConditionalEdges(es[3..], "condition-1", above);
  }

  /** The condition node leads to the order node on `outTrue` and nowhere on `outFalse`. */
  lemma ConditionLeadsToOrder(above: bool)
    ensures FindNextNodesWithCondition(InitialNodes, InitialEdges, "condition-1", above) == if above then [OrderOne] else []
  {
    ConditionEdges(above);
    if above {
      OrderFound();
      TargetsOne(InitialNodes, InitialEdges[2], OrderOne);
    }
  }

  /** The example's condition holds exactly when the price is above 150. */
  lemma PriceAbove150Holds(tick: Tick)
    requires tick.market.price == Some(tick.price)
    ensures EvaluateCondition(PriceAbove150, tick.market, tick.time) == (tick.price > 150.0)
  {
  }

  /** A frontier of one node: that node's visit and its successors. */
  lemma ProcessOne(l: Ledger, n: Node, tick: Tick, rate: real)
    requires tick.price > 0.0 && PositionsPositive(l.positions)
    ensures ProcessFrontier(InitialNodes, InitialEdges, l, [n], tick, rate)
              == (Visit(l, n, tick, rate), Successors(InitialNodes, InitialEdges, n, tick))
  {
    assert [n][..0] == [];
    var none: seq<Node> := [];
    assert ProcessFrontier(InitialNodes, InitialEdges, l, [], tick, rate) == (l, none);
    assert none + Successors(InitialNodes, InitialEdges, n, tick) == Successors(InitialNodes, InitialEdges, n, tick);
  }

  /** Visiting the condition node trades nothing and yields the order node exactly when the close is above 150. */
  lemma ConditionStep(l: Ledger, tick: Tick, rate: real)
    requires tick.price > 0.0 && PositionsPositive(l.positions) && tick.market.price == Some(tick.price)
    ensures ProcessFrontier(InitialNodes, InitialEdges, l, [ConditionOne], tick, rate)
              == (l, if tick.price > 150.0 then [OrderOne] else [])
  {
    ProcessOne(l, ConditionOne, tick, rate);
    PriceAbove150Holds(tick);
    ConditionLeadsToOrder(tick.price > 150.0);
  }

  /** Visiting the order node executes its order and ends the walk. */
  lemma OrderStep(l: Ledger, tick: Tick, rate: real)
    requires tick.price > 0.0 && PositionsPositive(l.positions)
    ensures ProcessFrontier(InitialNodes, InitialEdges, l, [OrderOne], tick, rate)
              == (ApplyOrder(l, BuyTen, tick.ticker, tick.day, tick.price, rate), [])
  {
    ProcessOne(l, OrderOne, tick, rate);
  }

  /** One round of the walk over a non-empty frontier of the example graph. */
  lemma TraverseStep(l: Ledger, frontier: seq<Node>, tick: Tick, rate: real)
    requires tick.price > 0.0 && PositionsPositive(l.positions)
    requires Ranked(InitialNodes, InitialEdges, FlowRank) && AllRanked(frontier, FlowRank) && frontier != []
    ensures var (m, next) := ProcessFrontier(InitialNodes, InitialEdges, l, frontier, tick, rate);
            && AllRanked(next, FlowRank)
            && Traverse(InitialNodes, InitialEdges, l, frontier, tick, rate, FlowRank)
               == Traverse(InitialNodes, InitialEdges, m, next, tick, rate, FlowRank)
  {
    FrontierBound(InitialNodes, InitialEdges, l, frontier, tick, rate, FlowRank);
  }

  /** From the order node, the walk executes the order and stops. */
  lemma OrderWalk(l: Ledger, tick: Tick, rate: real)
    requires tick.price > 0.0 && PositionsPositive(l.positions)
    requires Ranked(InitialNodes, InitialEdges, FlowRank) && AllRanked([OrderOne], FlowRank)
    ensures Traverse(InitialNodes, InitialEdges, l, [OrderOne], tick, rate, FlowRank)
              == ApplyOrder(l, BuyTen, tick.ticker, tick.day, tick.price, rate)
  {
    TraverseStep(l, [OrderOne], tick, rate);
    OrderStep(l, tick, rate);
  }

  /** From the condition node, the walk buys exactly when the close is above 150. */
  lemma ConditionWalk(l: Ledger, tick: Tick, rate: real)
    requires tick.price > 0.0 && PositionsPositive(l.positions) && tick.market.price == Some(tick.price)
    requires Ranked(InitialNodes, InitialEdges, FlowRank) && AllRanked([ConditionOne], FlowRank)
    ensures Traverse(InitialNodes, InitialEdges, l, [ConditionOne], tick, rate, FlowRank)
              == if tick.price > 150.0 then ApplyOrder(l, BuyTen, tick.ticker, tick.day, tick.price, rate) else l
  {
    TraverseStep(l, [ConditionOne], tick, rate);
    ConditionStep(l, tick, rate);
    if tick.price > 150.0 {
      OrderWalk(l, tick, rate);
    }
  }

  /**
   * On a tick of AAPL, the walk from the stock-selection node buys 10 shares at the close exactly
   * when the close is above 150 (and the cash covers it); otherwise nothing happens.
   */
  lemma InitialFlowTick(l: Ledger, tick: Tick, rate: real)
    requires tick.price > 0.0 && PositionsPositive(l.positions) && tick.market.price == Some(tick.price)
    ensures Ranked(InitialNodes, InitialEdges, FlowRank)
    ensures AllRanked(FindNextNodes(InitialNodes, InitialEdges, "stock-1"), FlowRank)
    ensures Traverse(InitialNodes, InitialEdges, l, FindNextNodes(InitialNodes, InitialEdges, "stock-1"), tick, rate, FlowRank)
              == if tick.price > 150.0 then ApplyOrder(l, BuyTen, tick.ticker, tick.day, tick.price, rate) else l
  {
    InitialFlowRanked();
    StockLeadsToCondition();
    ConditionWalk(l, tick, rate);
  }
}

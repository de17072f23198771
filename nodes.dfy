/**
 * The node/edge graph that describes a trading algorithm (src/types/nodes.ts and the
 * reactflow `Node`/`Edge` records it is carried in).
 *
 * A reactflow node carries a `type` string and a `data` object whose fields are all optional;
 * the type and the data are independent, so `NodeData` holds every field any node kind may
 * have. A missing string field is modelled as the empty string, which JavaScript treats as
 * falsy exactly like `undefined`.
 */
module Nodes {
  import opened Wrappers

  datatype NodeType = Start | StockSelection | Condition | OrderExecution

  datatype ConditionType = PriceCondition | TechnicalCondition | FundamentalCondition | TimeCondition
                         | UnknownCondition  // any other non-empty string

  datatype Operator = Gt | Lt | Eq | Ge | Le
                    | UnknownOperator  // any other non-empty string

  datatype OrderType = Market | Limit | Stop | StopLimit

  datatype Side = Buy | Sell

  /** `quantity: number | 'all'` */
  datatype Quantity = All | Shares(count: int)

  datatype ConditionData = ConditionData(
    conditionType: Option<ConditionType>,
    operator: Option<Operator>,
    value: Option<real>,
    indicator: string,
    timeframe: string)

  /** The limit/stop price and the time in force are never read by the engine and are not modelled. */
  datatype OrderData = OrderData(
    orderType: Option<OrderType>,
    side: Option<Side>,
    quantity: Option<Quantity>)

  datatype NodeData = NodeData(
    labelText: string,  // `label` (a reserved word in Dafny)
    ticker: string,
    condition: ConditionData,
    order: OrderData)

  datatype Node = Node(id: string, kind: NodeType, data: NodeData)

  datatype Edge = Edge(id: string, source: string, target: string, sourceHandle: Option<string>)

  /** A condition is evaluable only with a type, an operator and a threshold value. */
  predicate ConditionComplete(c: ConditionData) {
    c.conditionType.Some? && c.operator.Some? && c.value.Some?
  }

  /** An order is executable only with an order type, a side and a quantity. */
  predicate OrderComplete(o: OrderData) {
    o.orderType.Some? && o.side.Some? && o.quantity.Some?
  }

  /** `edges.filter(edge => edge.source === id)`, in edge order. */
  function OutgoingEdges(edges: seq<Edge>, id: string): (r: seq<Edge>)
    ensures forall e :: e in r <==> e in edges && e.source == id
    ensures |r| <= |edges|
  {
    if edges == [] then []
    else (if edges[0].source == id then [edges[0]] else []) + OutgoingEdges(edges[1..], id)
  }

  /** `nodes.find(node => node.id === id)`: the first node with that id. */
  function FindNode(nodes: seq<Node>, id: string): (r: Option<Node>)
    ensures r.Some? <==> exists n :: n in nodes && n.id == id
    ensures r.Some? ==> r.value in nodes && r.value.id == id
    ensures r.Some? ==> exists k :: 0 <= k < |nodes| && nodes[k] == r.value && forall j :: 0 <= j < k ==> nodes[j].id != id
  {
    if nodes == [] then None
    else if nodes[0].id == id then Some(nodes[0])
    else
      var r := FindNode(nodes[1..], id);
      if r.Some? then
        assert exists k :: 0 <= k < |nodes[1..]| && nodes[1..][k] == r.value && forall j :: 0 <= j < k ==> nodes[1..][j].id != id;
        var k :| 0 <= k < |nodes[1..]| && nodes[1..][k] == r.value && forall j :: 0 <= j < k ==> nodes[1..][j].id != id;
        assert nodes[k + 1] == r.value;
        r
      else r
  }

  /** `nodes.find(node => node.type === 'start')`: the first start node. */
  function FindStart(nodes: seq<Node>): (r: Option<Node>)
    ensures r.None? <==> forall n :: n in nodes ==> n.kind != Start
    ensures r.Some? ==> exists k :: 0 <= k < |nodes| && nodes[k] == r.value && r.value.kind == Start
                                    && forall j :: 0 <= j < k ==> nodes[j].kind != Start
  {
    if nodes == [] then None
    else if nodes[0].kind == Start then Some(nodes[0])
    else
      var r := FindStart(nodes[1..]);
      if r.Some? then
        var k :| 0 <= k < |nodes[1..]| && nodes[1..][k] == r.value && r.value.kind == Start
                 && forall j :: 0 <= j < k ==> nodes[1..][j].kind != Start;
        assert nodes[k + 1] == r.value;
        r
      else r
  }
}

/**
 * The algorithm validator `validateAlgorithm` (src/utils/algorithmValidation.ts): it reports
 * a missing start node and a directed cycle reachable from the start node as errors, and
 * orphaned or incompletely configured nodes as warnings.
 *
 * Errors and warnings are datatypes; `ErrorText` and `WarningText` give the messages the
 * source pushes. The nested `checkCycle` closure shares `visited` and `result.errors` with its
 * enclosing function; here they are threaded through as in/out parameters.
 */
module AlgorithmValidation {
  import opened Wrappers
  import opened Nodes

  datatype ValidationError = MissingStartNode | CycleDetected

  datatype Warning =
    | NoIncoming(name: string)
    | NoOutgoing(name: string)
    | MissingTicker(name: string)
    | ConditionIncomplete(name: string)
    | OrderIncomplete(name: string)

  datatype ValidationResult = ValidationResult(isValid: bool, errors: seq<ValidationError>, warnings: seq<Warning>)

  function ErrorText(e: ValidationError): string {
    match e
    case MissingStartNode => "Algorithm must have a Start node"
    case CycleDetected => "Algorithm contains a cycle, which could lead to infinite loops"
  }

  function WarningText(w: Warning): string {
    match w
    case NoIncoming(n) => "Node \"" + n + "\" has no incoming connections"
    case NoOutgoing(n) => "Node \"" + n + "\" has no outgoing connections"
    case MissingTicker(n) => "Stock Selection node \"" + n + "\" has no ticker specified"
    case ConditionIncomplete(n) => "Condition node \"" + n + "\" is not fully configured"
    case OrderIncomplete(n) => "Order Execution node \"" + n + "\" is not fully configured"
  }

  /** `node.data.label || node.id` */
  function DisplayName(n: Node): string {
    if n.data.labelText != "" then n.data.labelText else n.id
  }

  predicate HasIncoming(edges: seq<Edge>, id: string) {
    exists e :: e in edges && e.target == id
  }

  predicate HasOutgoing(edges: seq<Edge>, id: string) {
    exists e :: e in edges && e.source == id
  }

  // ---------------------------------------------------------------- orphan warnings

  function NodeOrphanWarnings(n: Node, edges: seq<Edge>): seq<Warning> {
    (if n.kind != Start && !HasIncoming(edges, n.id) then [NoIncoming(DisplayName(n))] else [])
    + (if n.kind != OrderExecution && !HasOutgoing(edges, n.id) then [NoOutgoing(DisplayName(n))] else [])
  }

  /** The warnings of the first `nodes.forEach`, in node order. */
  function OrphanWarnings(ns: seq<Node>, edges: seq<Edge>): (r: seq<Warning>)
    ensures |r| <= 2 * |ns|
  {
    if ns == [] then [] else OrphanWarnings(ns[..|ns| - 1], edges) + NodeOrphanWarnings(ns[|ns| - 1], edges)
  }

  lemma OrphanWarningsSnoc(ns: seq<Node>, n: Node, edges: seq<Edge>)
    ensures OrphanWarnings(ns + [n], edges) == OrphanWarnings(ns, edges) + NodeOrphanWarnings(n, edges)
  {
    assert (ns + [n])[..|ns|] == ns;
  }

  lemma OrphanWarningsPrefix(ns: seq<Node>, i: nat, edges: seq<Edge>)
    requires i < |ns|
    ensures OrphanWarnings(ns[..i + 1], edges) == OrphanWarnings(ns[..i], edges) + NodeOrphanWarnings(ns[i], edges)
  {
    assert ns[..i + 1] == ns[..i] + [ns[i]];
    OrphanWarningsSnoc(ns[..i], ns[i], edges);
  }

  /** Node `n` is the reason for orphan warning `w`. */
  predicate OrphanReason(n: Node, edges: seq<Edge>, w: Warning) {
    (w == NoIncoming(DisplayName(n)) && n.kind != Start && !HasIncoming(edges, n.id)) ||
    (w == NoOutgoing(DisplayName(n)) && n.kind != OrderExecution && !HasOutgoing(edges, n.id))
  }

  /**
   * Every non-start node without an incoming edge and every non-order node without an
   * outgoing edge is reported, and no other orphan warning is.
   */
  lemma {:induction false} OrphanWarningsExact(ns: seq<Node>, edges: seq<Edge>)
    ensures forall i, w :: 0 <= i < |ns| && OrphanReason(ns[i], edges, w) ==> w in OrphanWarnings(ns, edges)
    ensures forall w :: w in OrphanWarnings(ns, edges) ==>
              exists i :: 0 <= i < |ns| && OrphanReason(ns[i], edges, w)
  {
    if ns != [] {
      var init := ns[..|ns| - 1];
      var last := ns[|ns| - 1];
      OrphanWarningsExact(init, edges);
      assert forall i :: 0 <= i < |init| ==> init[i] == ns[i];
      forall w | w in OrphanWarnings(ns, edges)
        ensures exists i :: 0 <= i < |ns| && OrphanReason(ns[i], edges, w)
      {
        if w in OrphanWarnings(init, edges) {
          var i :| 0 <= i < |init| && OrphanReason(init[i], edges, w);
          assert ns[i] == init[i];
        } else {
          assert OrphanReason(ns[|ns| - 1], edges, w);
        }
      }
    }
  }

  // ---------------------------------------------------------------- configuration warnings

  function NodeConfigWarnings(n: Node): seq<Warning> {
    match n.kind
    case StockSelection => if n.data.ticker == "" then [MissingTicker(DisplayName(n))] else []
    case Condition => if !ConditionComplete(n.data.condition) then [ConditionIncomplete(DisplayName(n))] else []
    case OrderExecution => if !OrderComplete(n.data.order) then [OrderIncomplete(DisplayName(n))] else []
    case Start => []
  }

  /** The warnings of the second `nodes.forEach`, in node order: at most one per node. */
  function ConfigWarnings(ns: seq<Node>): (r: seq<Warning>)
    ensures |r| <= |ns|
  {
    if ns == [] then [] else ConfigWarnings(ns[..|ns| - 1]) + NodeConfigWarnings(ns[|ns| - 1])
  }

  lemma ConfigWarningsSnoc(ns: seq<Node>, n: Node)
    ensures ConfigWarnings(ns + [n]) == ConfigWarnings(ns) + NodeConfigWarnings(n)
  {
    assert (ns + [n])[..|ns|] == ns;
  }

  lemma ConfigWarningsPrefix(ns: seq<Node>, i: nat)
    requires i < |ns|
    ensures ConfigWarnings(ns[..i + 1]) == ConfigWarnings(ns[..i]) + NodeConfigWarnings(ns[i])
  {
    assert ns[..i + 1] == ns[..i] + [ns[i]];
    ConfigWarningsSnoc(ns[..i], ns[i]);
  }

  /** Node `n` is the reason for configuration warning `w`. */
  predicate ConfigReason(n: Node, w: Warning) {
    (w == MissingTicker(DisplayName(n)) && n.kind == StockSelection && n.data.ticker == "") ||
    (w == ConditionIncomplete(DisplayName(n)) && n.kind == Condition && !ConditionComplete(n.data.condition)) ||
    (w == OrderIncomplete(DisplayName(n)) && n.kind == OrderExecution && !OrderComplete(n.data.order))
  }

  /**
   * Every stock node without a ticker, condition node with a missing field and order node
   * with a missing field is reported, and no other configuration warning is.
   */
  lemma {:induction false} ConfigWarningsExact(ns: seq<Node>)
    ensures forall i, w :: 0 <= i < |ns| && ConfigReason(ns[i], w) ==> w in ConfigWarnings(ns)
    ensures forall w :: w in ConfigWarnings(ns) ==> exists i :: 0 <= i < |ns| && ConfigReason(ns[i], w)
  {
    if ns != [] {
      var init := ns[..|ns| - 1];
      ConfigWarningsExact(init);
      assert forall i :: 0 <= i < |init| ==> init[i] == ns[i];
      forall w | w in ConfigWarnings(ns) ensures exists i :: 0 <= i < |ns| && ConfigReason(ns[i], w) {
        if w in ConfigWarnings(init) {
          var i :| 0 <= i < |init| && ConfigReason(init[i], w);
          assert ns[i] == init[i];
        } else {
          assert ConfigReason(ns[|ns| - 1], w);
        }
      }
    }
  }

  // ---------------------------------------------------------------- cycles

  ghost predicate HasEdge(edges: seq<Edge>, a: string, b: string) {
    exists e :: e in edges && e.source == a && e.target == b
  }

  /** Consecutive ids of `w` are joined by edges. */
  ghost predicate IsWalk(edges: seq<Edge>, w: seq<string>) {
    forall i :: 0 <= i < |w| - 1 ==> HasEdge(edges, w[i], w[i + 1])
  }

  ghost predicate HasRepeat(w: seq<string>) {
    exists i, j :: 0 <= i < j < |w| && w[i] == w[j]
  }

  /** Some walk from `s` revisits an id: a directed cycle is reachable from `s`. */
  ghost predicate ReachableCycle(edges: seq<Edge>, s: string) {
    exists w :: |w| > 0 && w[0] == s && IsWalk(edges, w) && HasRepeat(w)
  }

  /** Every edge leaving a ranked id enters a ranked id of strictly smaller rank. */
  ghost predicate Ranked(edges: seq<Edge>, rank: map<string, nat>) {
    forall e :: e in edges && e.source in rank ==> e.target in rank && rank[e.target] < rank[e.source]
  }

  /** The ids the search can visit. */
  ghost function Universe(edges: seq<Edge>, start: string): (u: set<string>)
    ensures start in u && forall e :: e in edges ==> e.target in u
  {
    {start} + set e | e in edges :: e.target
  }

  lemma {:induction false} WalkDescends(edges: seq<Edge>, rank: map<string, nat>, w: seq<string>, j: nat)
    requires Ranked(edges, rank) && IsWalk(edges, w) && 0 < |w| && w[0] in rank && j < |w|
    ensures forall i :: 0 <= i <= j ==> w[i] in rank
    ensures forall i :: 0 <= i < j ==> rank[w[j]] < rank[w[i]]
  {
    if j > 0 {
      WalkDescends(edges, rank, w, j - 1);
      assert HasEdge(edges, w[j - 1], w[j]);
      var e :| e in edges && e.source == w[j - 1] && e.target == w[j];
    }
  }

  /** A ranked start id reaches no cycle: ranks strictly decrease along every walk. */
  lemma RankedReachesNoCycle(edges: seq<Edge>, rank: map<string, nat>, s: string)
    requires Ranked(edges, rank) && s in rank
    ensures !ReachableCycle(edges, s)
  {
    forall w | |w| > 0 && w[0] == s && IsWalk(edges, w) ensures !HasRepeat(w) {
      forall i, j | 0 <= i < j < |w| ensures w[i] != w[j] {
        WalkDescends(edges, rank, w, j);
      }
    }
  }

  lemma SubsetMissingOneSmaller(a: set<string>, b: set<string>, x: string)
    requires a <= b && x in b && x !in a
    ensures |a| < |b|
  {
    var c := b - {x};
    assert a <= c;
    assert c == a + (c - a);
  }

  /** Re-entering an id of the current path closes a cycle. */
  lemma RevisitIsCycle(edges: seq<Edge>, start: string, trail: seq<string>, nodeId: string)
    requires nodeId in trail && (trail + [nodeId])[0] == start && IsWalk(edges, trail + [nodeId])
    ensures ReachableCycle(edges, start)
  {
    var i :| 0 <= i < |trail| && trail[i] == nodeId;
    var w := trail + [nodeId];
    assert w[i] == w[|trail|];
    assert HasRepeat(w);
  }

  /** Once every successor of `nodeId` is ranked, `nodeId` can be ranked above all of them. */
  lemma FinishNode(edges: seq<Edge>, nodeId: string, outgoing: seq<Edge>, rank: map<string, nat>, clock: nat)
    requires forall e :: e in outgoing <==> e in edges && e.source == nodeId
    requires forall j :: 0 <= j < |outgoing| ==> outgoing[j].target in rank
    requires nodeId !in rank && Ranked(edges, rank) && forall k :: k in rank ==> rank[k] < clock
    ensures Ranked(edges, rank[nodeId := clock])
  {
    var rank' := rank[nodeId := clock];
    forall e | e in edges && e.source in rank'
      ensures e.target in rank' && rank'[e.target] < rank'[e.source]
    {
      if e.source == nodeId {
        assert e in outgoing;
        var j :| 0 <= j < |outgoing| && outgoing[j] == e;
      }
    }
  }

  lemma FinishedGrows(outgoing: seq<Edge>, i: nat, before: map<string, nat>, after: map<string, nat>)
    requires i < |outgoing| && before.Keys <= after.Keys && outgoing[i].target in after
    requires forall j :: 0 <= j < i ==> outgoing[j].target in before
    ensures forall j :: 0 <= j <= i ==> outgoing[j].target in after
  {
  }

  lemma WalkSnoc(edges: seq<Edge>, w: seq<string>, e: Edge)
    requires IsWalk(edges, w) && 0 < |w| && e in edges && e.source == w[|w| - 1]
    ensures IsWalk(edges, w + [e.target])
  {
    assert HasEdge(edges, w[|w| - 1], e.target);
  }

  /**
   * `checkCycle(nodeId, path)`: depth-first search that reports a cycle when it re-enters
   * an id on the current path. Ghost `trail` is the path as a walk from the start id; ghost
   * `rank` numbers the ids whose search finished, in finishing order.
   */
  method CheckCycle(edges: seq<Edge>, nodeId: string, path: set<string>, visited: set<string>,
                    errors: seq<ValidationError>, ghost start: string, ghost trail: seq<string>,
                    ghost universe: set<string>, ghost rank: map<string, nat>, ghost clock: nat)
    returns (found: bool, visited': set<string>, errors': seq<ValidationError>,
             ghost rank': map<string, nat>, ghost clock': nat)
    requires forall e :: e in edges ==> e.target in universe
    requires nodeId in universe && visited <= universe
    requires (trail + [nodeId])[0] == start && IsWalk(edges, trail + [nodeId])
    requires forall x :: x in path <==> x in trail
    requires visited == path + rank.Keys && path !! rank.Keys
    requires Ranked(edges, rank) && forall k :: k in rank ==> rank[k] < clock
    decreases |universe - visited|
    // a reported cycle is real, and is reported once
    ensures found ==> ReachableCycle(edges, start) && errors' == errors + [CycleDetected]
    ensures !found ==> errors' == errors
    // when no cycle is reported, everything reachable from nodeId is finished and ranked
    ensures !found ==> nodeId in rank' && Ranked(edges, rank') && rank.Keys <= rank'.Keys
    ensures !found ==> visited' == path + rank'.Keys && path !! rank'.Keys && visited' <= universe
    ensures !found ==> forall k :: k in rank' ==> rank'[k] < clock'
  {
    if nodeId in path {
      RevisitIsCycle(edges, start, trail, nodeId);
      return true, visited, errors + [CycleDetected], rank, clock;
    }
    if nodeId in visited {
      return false, visited, errors, rank, clock;
    }
    visited' := visited + {nodeId};
    var newPath := path + {nodeId};
    var outgoing := OutgoingEdges(edges, nodeId);
    errors', rank', clock' := errors, rank, clock;
    var i := 0;
    while i < |outgoing|
      invariant 0 <= i <= |outgoing|
      invariant visited + {nodeId} <= visited' <= universe
      invariant visited' == newPath + rank'.Keys && newPath !! rank'.Keys
      invariant Ranked(edges, rank') && forall k :: k in rank' ==> rank'[k] < clock'
      invariant rank.Keys <= rank'.Keys
      invariant forall j :: 0 <= j < i ==> outgoing[j].target in rank'
      invariant errors' == errors
    {
      var e := outgoing[i];
      ghost var before := rank';
      assert e in edges && e.source == nodeId;
      WalkSnoc(edges, trail + [nodeId], e);
      SubsetMissingOneSmaller(universe - visited', universe - visited, nodeId);
      var f;
      f, visited', errors', rank', clock' :=
        CheckCycle(edges, e.target, newPath, visited', errors', start, trail + [nodeId], universe, rank', clock');
      if f {
        return true, visited', errors', rank', clock';
      }
      FinishedGrows(outgoing, i, before, rank');
      i := i + 1;
    }
    FinishNode(edges, nodeId, outgoing, rank', clock');
    rank' := rank'[nodeId := clock'];
    clock' := clock' + 1;
    found := false;
  }

  /**
   * `if (startNode) checkCycle(startNode.id, new Set())`: appends the cycle error exactly when
   * a cycle is reachable from `start`.
   */
  method DetectCycle(edges: seq<Edge>, start: string, errors: seq<ValidationError>)
    returns (errors': seq<ValidationError>)
    ensures errors' == errors + (if ReachableCycle(edges, start) then [CycleDetected] else [])
  {
    var found, visited;
    ghost var rank, clock;
    found, visited, errors', rank, clock :=
      CheckCycle(edges, start, {}, {}, errors, start, [], Universe(edges, start), map[], 0);
    if !found {
      RankedReachesNoCycle(edges, rank, start);
    }
  }

  /** The first `nodes.forEach` of `validateAlgorithm`: connection warnings, appended to `warnings`. */
  method AddOrphanWarnings(nodes: seq<Node>, edges: seq<Edge>, warnings: seq<Warning>) returns (warnings': seq<Warning>)
    ensures warnings' == warnings + OrphanWarnings(nodes, edges)
  {
    warnings' := warnings;
    var i := 0;
    while i < |nodes|
      invariant 0 <= i <= |nodes|
      invariant warnings' == warnings + OrphanWarnings(nodes[..i], edges)
    {
      OrphanWarningsPrefix(nodes, i, edges);
      warnings' := CheckConnections(nodes[i], edges, warnings');
      i := i + 1;
    }
    assert nodes[..i] == nodes;
  }

  /** One node of the first `forEach`: the incoming check, then the outgoing check. */
  method CheckConnections(node: Node, edges: seq<Edge>, warnings: seq<Warning>) returns (warnings': seq<Warning>)
    ensures warnings' == warnings + NodeOrphanWarnings(node, edges)
  {
    warnings' := warnings;
    if node.kind != Start && !HasIncoming(edges, node.id) {
      warnings' := warnings' + [NoIncoming(DisplayName(node))];
    }
    if node.kind != OrderExecution && !HasOutgoing(edges, node.id) {
      warnings' := warnings' + [NoOutgoing(DisplayName(node))];
    }
  }

  /** The second `nodes.forEach` of `validateAlgorithm`: configuration warnings, appended to `warnings`. */
  method AddConfigWarnings(nodes: seq<Node>, warnings: seq<Warning>) returns (warnings': seq<Warning>)
    ensures warnings' == warnings + ConfigWarnings(nodes)
  {
    warnings' := warnings;
    var i := 0;
    while i < |nodes|
      invariant 0 <= i <= |nodes|
      invariant warnings' == warnings + ConfigWarnings(nodes[..i])
    {
      ConfigWarningsPrefix(nodes, i);
      warnings' := CheckConfiguration(nodes[i], warnings');
      i := i + 1;
    }
    assert nodes[..i] == nodes;
  }

  /** One node of the second `forEach`: the check its type calls for. */
  method CheckConfiguration(node: Node, warnings: seq<Warning>) returns (warnings': seq<Warning>)
    ensures warnings' == warnings + NodeConfigWarnings(node)
  {
    warnings' := warnings;
    match node.kind {
      case StockSelection =>
        if node.data.ticker == "" {
          warnings' := warnings' + [MissingTicker(DisplayName(node))];
        }
      case Condition =>
        if !ConditionComplete(node.data.condition) {
          warnings' := warnings' + [ConditionIncomplete(DisplayName(node))];
        }
      case OrderExecution =>
        if !OrderComplete(node.data.order) {
          warnings' := warnings' + [OrderIncomplete(DisplayName(node))];
        }
      case Start =>
    }
  }

  method ValidateAlgorithm(nodes: seq<Node>, edges: seq<Edge>) returns (r: ValidationResult)
    ensures r.isValid <==> r.errors == []
    // a missing start node is the only error reported then
    ensures FindStart(nodes).None? ==> r.errors == [MissingStartNode]
    // otherwise the cycle error is reported, once, exactly when a cycle is reachable from the first start node
    ensures FindStart(nodes).Some? ==>
              r.errors == (if ReachableCycle(edges, FindStart(nodes).value.id) then [CycleDetected] else [])
    ensures r.warnings == OrphanWarnings(nodes, edges) + ConfigWarnings(nodes)
  {
    var isValid := true;
    var errors: seq<ValidationError> := [];
    var warnings: seq<Warning> := [];

    var startNode := FindStart(nodes);
    if startNode.None? {
      isValid := false;
      errors := errors + [MissingStartNode];
    }

    warnings := AddOrphanWarnings(nodes, edges, warnings);
    assert warnings == OrphanWarnings(nodes, edges);

    if startNode.Some? {
      errors := DetectCycle(edges, startNode.value.id, errors);
    }

    ghost var orphans := warnings;
    warnings := AddConfigWarnings(nodes, warnings);
    assert warnings == orphans + ConfigWarnings(nodes);

    if |errors| > 0 {
      isValid := false;
    }
    r := ValidationResult(isValid, errors, warnings);
  }
}

/** Rendering a registry graph: the validator, the flow edges, and the generator that turns
    a page specification's node list into a chain. The wording of a resolved label is a
    parameter `message`; a key without a message resolves to itself. */
module FlowGraph {
  import opened Common
  import opened GraphOrder

  datatype Issue =
    | MissingLabel(key: string)
    | MissingChild(node: string, child: string)
    | MissingSource(edge: string, source: string)
    | MissingTarget(edge: string, target: string)

  datatype Drawing = Drawn(nodes: seq<Node>, edges: seq<Edge>) | Rejected(issues: seq<Issue>)

  // ---------------------------------------------------------------- validation

  function ChildIssues(known: set<string>, id: string, children: seq<string>): seq<Issue> {
    if children == [] then []
    else
      var front, last := children[..|children| - 1], children[|children| - 1];
      if last in known then ChildIssues(known, id, front)
      else ChildIssues(known, id, front) + [MissingChild(id, last)]
  }

  function NodeIssues(known: set<string>, message: string -> string, node: Node): seq<Issue> {
    if message(node.labelKey) == node.labelKey
    then [MissingLabel(node.labelKey)] + ChildIssues(known, node.id, node.children)
    else ChildIssues(known, node.id, node.children)
  }

  function AllNodeIssues(known: set<string>, message: string -> string, nodes: seq<Node>): seq<Issue> {
    if nodes == [] then []
    else AllNodeIssues(known, message, nodes[..|nodes| - 1]) + NodeIssues(known, message, nodes[|nodes| - 1])
  }

  function EdgeIssues(known: set<string>, edge: Edge): seq<Issue> {
    if edge.source in known then
      if edge.target in known then [] else [MissingTarget(edge.id, edge.target)]
    else if edge.target in known then [MissingSource(edge.id, edge.source)]
    else [MissingSource(edge.id, edge.source), MissingTarget(edge.id, edge.target)]
  }

  function AllEdgeIssues(known: set<string>, edges: seq<Edge>): seq<Issue> {
    if edges == [] then []
    else AllEdgeIssues(known, edges[..|edges| - 1]) + EdgeIssues(known, edges[|edges| - 1])
  }

  function Issues(graph: Graph, message: string -> string): seq<Issue> {
    AllNodeIssues(Ids(graph.nodes), message, graph.nodes) + AllEdgeIssues(Ids(graph.nodes), graph.edges)
  }

  method CollectChildIssues(known: set<string>, node: Node) returns (issues: seq<Issue>)
    ensures issues == ChildIssues(known, node.id, node.children)
  {
    issues := [];
    for i := 0 to |node.children|
      invariant issues == ChildIssues(known, node.id, node.children[..i])
    {
      assert node.children[..i + 1][..i] == node.children[..i];
      if node.children[i] !in known {
        issues := issues + [MissingChild(node.id, node.children[i])];
      }
    }
    assert node.children[..|node.children|] == node.children;
  }

  method CollectNodeIssues(nodes: seq<Node>, nodeIds: set<string>, message: string -> string)
    returns (issues: seq<Issue>)
    ensures issues == AllNodeIssues(nodeIds, message, nodes)
  {
    issues := [];
    for i := 0 to |nodes|
      invariant issues == AllNodeIssues(nodeIds, message, nodes[..i])
    {
      assert nodes[..i + 1][..i] == nodes[..i];
      var node := nodes[i];
      ghost var before := issues;
      if message(node.labelKey) == node.labelKey {
        issues := issues + [MissingLabel(node.labelKey)];
      }
      var missing := CollectChildIssues(nodeIds, node);
      issues := issues + missing;
      assert issues == before + NodeIssues(nodeIds, message, node);
    }
    assert nodes[..|nodes|] == nodes;
  }

  method CollectEdgeIssues(edges: seq<Edge>, nodeIds: set<string>) returns (issues: seq<Issue>)
    ensures issues == AllEdgeIssues(nodeIds, edges)
  {
    issues := [];
    for i := 0 to |edges|
      invariant issues == AllEdgeIssues(nodeIds, edges[..i])
    {
      assert edges[..i + 1][..i] == edges[..i];
      ghost var before := issues;
      if edges[i].source !in nodeIds {
        issues := issues + [MissingSource(edges[i].id, edges[i].source)];
      }
      if edges[i].target !in nodeIds {
        issues := issues + [MissingTarget(edges[i].id, edges[i].target)];
      }
      assert issues == before + EdgeIssues(nodeIds, edges[i]);
    }
    assert edges[..|edges|] == edges;
  }

  method CollectIssues(graph: Graph, message: string -> string) returns (issues: seq<Issue>)
    ensures issues == Issues(graph, message)
  {
    var nodeIds := Ids(graph.nodes);
    issues := CollectNodeIssues(graph.nodes, nodeIds, message);
    var edgeIssues := CollectEdgeIssues(graph.edges, nodeIds);
    issues := issues + edgeIssues;
  }

  /** What is wrong with a graph, said without the validator. */
  ghost predicate IsFault(graph: Graph, message: string -> string, issue: Issue) {
    match issue
    case MissingLabel(key) => message(key) == key && exists node :: node in graph.nodes && node.labelKey == key
    case MissingChild(id, child) =>
      child !in Ids(graph.nodes) && exists node :: node in graph.nodes && node.id == id && child in node.children
    case MissingSource(id, source) =>
      source !in Ids(graph.nodes) && exists edge :: edge in graph.edges && edge.id == id && edge.source == source
    case MissingTarget(id, target) =>
      target !in Ids(graph.nodes) && exists edge :: edge in graph.edges && edge.id == id && edge.target == target
  }

  lemma {:induction false} ChildIssuesName(known: set<string>, id: string, children: seq<string>, issue: Issue)
    ensures issue in ChildIssues(known, id, children)
       <==> issue.MissingChild? && issue.node == id && issue.child in children && issue.child !in known
  {
    if children != [] {
      var front, last := children[..|children| - 1], children[|children| - 1];
      ChildIssuesName(known, id, front, issue);
      assert children == front + [last];
    }
  }

  ghost predicate NodeFault(known: set<string>, message: string -> string, node: Node, issue: Issue) {
    || (issue == MissingLabel(node.labelKey) && message(node.labelKey) == node.labelKey)
    || (issue.MissingChild? && issue.node == node.id && issue.child in node.children && issue.child !in known)
  }

  lemma NodeIssuesName(known: set<string>, message: string -> string, node: Node, issue: Issue)
    ensures issue in NodeIssues(known, message, node) <==> NodeFault(known, message, node, issue)
  {
    ChildIssuesName(known, node.id, node.children, issue);
  }

  ghost predicate SomeNodeFault(known: set<string>, message: string -> string, nodes: seq<Node>, issue: Issue) {
    exists i :: 0 <= i < |nodes| && NodeFault(known, message, nodes[i], issue)
  }

  lemma SomeNodeFaultSnoc(known: set<string>, message: string -> string, nodes: seq<Node>, issue: Issue)
    requires nodes != []
    ensures SomeNodeFault(known, message, nodes, issue)
       <==> || SomeNodeFault(known, message, nodes[..|nodes| - 1], issue)
            || NodeFault(known, message, nodes[|nodes| - 1], issue)
  {
    var front := nodes[..|nodes| - 1];
    if i :| 0 <= i < |front| && NodeFault(known, message, front[i], issue) {
      assert NodeFault(known, message, nodes[i], issue);
    }
    if i :| 0 <= i < |nodes| && NodeFault(known, message, nodes[i], issue) {
      assert i < |front| ==> NodeFault(known, message, front[i], issue);
    }
  }

  lemma {:induction false} AllNodeIssuesName(known: set<string>, message: string -> string, nodes: seq<Node>,
                                             issue: Issue)
    ensures issue in AllNodeIssues(known, message, nodes) <==> SomeNodeFault(known, message, nodes, issue)
  {
    if nodes != [] {
      AllNodeIssuesName(known, message, nodes[..|nodes| - 1], issue);
      NodeIssuesName(known, message, nodes[|nodes| - 1], issue);
      SomeNodeFaultSnoc(known, message, nodes, issue);
    }
  }

  ghost predicate EdgeFault(known: set<string>, edge: Edge, issue: Issue) {
    || (issue == MissingSource(edge.id, edge.source) && edge.source !in known)
    || (issue == MissingTarget(edge.id, edge.target) && edge.target !in known)
  }

  ghost predicate SomeEdgeFault(known: set<string>, edges: seq<Edge>, issue: Issue) {
    exists i :: 0 <= i < |edges| && EdgeFault(known, edges[i], issue)
  }

  lemma {:induction false} AllEdgeIssuesName(known: set<string>, edges: seq<Edge>, issue: Issue)
    ensures issue in AllEdgeIssues(known, edges) <==> SomeEdgeFault(known, edges, issue)
  {
    if edges != [] {
      var front, last := edges[..|edges| - 1], edges[|edges| - 1];
      AllEdgeIssuesName(known, front, issue);
      assert issue in EdgeIssues(known, last) <==> EdgeFault(known, last, issue);
      if i :| 0 <= i < |edges| && EdgeFault(known, edges[i], issue) {
        assert i < |front| ==> EdgeFault(known, front[i], issue);
      }
      if i :| 0 <= i < |front| && EdgeFault(known, front[i], issue) {
        assert EdgeFault(known, edges[i], issue);
      }
    }
  }

  lemma NodeFaultIsFault(graph: Graph, message: string -> string, node: Node, issue: Issue)
    requires node in graph.nodes && NodeFault(Ids(graph.nodes), message, node, issue)
    ensures IsFault(graph, message, issue)
  {
  }

  lemma EdgeFaultIsFault(graph: Graph, message: string -> string, edge: Edge, issue: Issue)
    requires edge in graph.edges && EdgeFault(Ids(graph.nodes), edge, issue)
    ensures IsFault(graph, message, issue)
  {
  }

  lemma FaultIsSomewhere(graph: Graph, message: string -> string, issue: Issue)
    requires IsFault(graph, message, issue)
    ensures || SomeNodeFault(Ids(graph.nodes), message, graph.nodes, issue)
            || SomeEdgeFault(Ids(graph.nodes), graph.edges, issue)
  {
    match issue
    case MissingLabel(key) =>
      var i :| 0 <= i < |graph.nodes| && graph.nodes[i].labelKey == key;
      assert NodeFault(Ids(graph.nodes), message, graph.nodes[i], issue);
    case MissingChild(id, child) =>
      var i :| 0 <= i < |graph.nodes| && graph.nodes[i].id == id && child in graph.nodes[i].children;
      assert NodeFault(Ids(graph.nodes), message, graph.nodes[i], issue);
    case MissingSource(id, source) =>
      var i :| 0 <= i < |graph.edges| && graph.edges[i].id == id && graph.edges[i].source == source;
      assert EdgeFault(Ids(graph.nodes), graph.edges[i], issue);
    case MissingTarget(id, target) =>
      var i :| 0 <= i < |graph.edges| && graph.edges[i].id == id && graph.edges[i].target == target;
      assert EdgeFault(Ids(graph.nodes), graph.edges[i], issue);
  }

  /** The validator reports every fault of the graph and nothing else. */
  lemma IssuesAreFaults(graph: Graph, message: string -> string, issue: Issue)
    ensures issue in Issues(graph, message) <==> IsFault(graph, message, issue)
  {
    var known := Ids(graph.nodes);
    AllNodeIssuesName(known, message, graph.nodes, issue);
    AllEdgeIssuesName(known, graph.edges, issue);
    if i :| 0 <= i < |graph.nodes| && NodeFault(known, message, graph.nodes[i], issue) {
      NodeFaultIsFault(graph, message, graph.nodes[i], issue);
    }
    if i :| 0 <= i < |graph.edges| && EdgeFault(known, graph.edges[i], issue) {
      EdgeFaultIsFault(graph, message, graph.edges[i], issue);
    }
    if IsFault(graph, message, issue) {
      FaultIsSomewhere(graph, message, issue);
    }
  }

  // ---------------------------------------------------------------- flow edges

  function ChildEdges(id: string, children: seq<string>): seq<Edge> {
    if children == [] then []
    else
      var front, last := children[..|children| - 1], children[|children| - 1];
      ChildEdges(id, front) + [Edge(id + "->" + last, id, last)]
  }

  function DerivedEdges(nodes: seq<Node>): seq<Edge> {
    if nodes == [] then []
    else
      var front, last := nodes[..|nodes| - 1], nodes[|nodes| - 1];
      DerivedEdges(front) + ChildEdges(last.id, last.children)
  }

  /** Explicit edges if there are any, otherwise one edge for each child id. */
  function FlowEdges(graph: Graph): seq<Edge> {
    if graph.edges != [] then graph.edges else DerivedEdges(graph.nodes)
  }

  function Draw(graph: Graph, message: string -> string): Drawing {
    if Issues(graph, message) != [] then Rejected(Issues(graph, message))
    else Drawn(Order(graph), FlowEdges(graph))
  }

  method BuildFlowEdges(graph: Graph) returns (edges: seq<Edge>)
    ensures edges == FlowEdges(graph)
  {
    if |graph.edges| > 0 {
      return graph.edges;
    }
    edges := [];
    for i := 0 to |graph.nodes|
      invariant edges == DerivedEdges(graph.nodes[..i])
    {
      assert graph.nodes[..i + 1][..i] == graph.nodes[..i];
      var node := graph.nodes[i];
      ghost var before := edges;
      for j := 0 to |node.children|
        invariant edges == before + ChildEdges(node.id, node.children[..j])
      {
        assert node.children[..j + 1][..j] == node.children[..j];
        edges := edges + [Edge(node.id + "->" + node.children[j], node.id, node.children[j])];
      }
      assert node.children[..|node.children|] == node.children;
    }
    assert graph.nodes[..|graph.nodes|] == graph.nodes;
  }

  method BuildFlowGraph(graph: Graph, message: string -> string) returns (drawing: Drawing)
    ensures drawing == Draw(graph, message)
  {
    var ordered := OrderGraphNodes(graph);
    var issues := CollectIssues(graph, message);
    if |issues| > 0 {
      return Rejected(issues);
    }
    var edges := BuildFlowEdges(graph);
    drawing := Drawn(ordered, edges);
  }

  lemma {:induction false} DerivedEdgesJoin(nodes: seq<Node>, edge: Edge)
    requires edge in DerivedEdges(nodes)
    ensures exists node :: node in nodes && edge.source == node.id && edge.target in node.children
  {
    if nodes != [] {
      var front, last := nodes[..|nodes| - 1], nodes[|nodes| - 1];
      assert nodes == front + [last];
      if edge in DerivedEdges(front) {
        DerivedEdgesJoin(front, edge);
        var node :| node in front && edge.source == node.id && edge.target in node.children;
        assert node in nodes;
      } else {
        ChildEdgesJoin(last.id, last.children, edge);
        assert last in nodes;
      }
    }
  }

  lemma {:induction false} ChildEdgesJoin(id: string, children: seq<string>, edge: Edge)
    requires edge in ChildEdges(id, children)
    ensures edge.source == id && edge.target in children
  {
    if children != [] {
      var front, last := children[..|children| - 1], children[|children| - 1];
      if edge in ChildEdges(id, front) {
        ChildEdgesJoin(id, front, edge);
      }
    }
  }

  /** No id is lost by the ordering: reachable ids appear once, the others as registered. */
  lemma OrderKeepsIds(graph: Graph)
    ensures Ids(Order(graph)) == Ids(graph.nodes)
  {
    var reached := OrderIsReachableThenRest(graph);
    forall id ensures id in Ids(Order(graph)) <==> id in Ids(graph.nodes) {
      if id in Ids(Order(graph)) {
        var node :| node in Order(graph) && node.id == id;
        assert node in graph.nodes;
      }
      if id in Ids(graph.nodes) {
        var node :| node in graph.nodes && node.id == id;
        if Reached(graph, id) {
          assert ById(graph.nodes)[id] in reached;
        } else {
          assert node in Order(graph);
        }
      }
    }
  }

  lemma ExplicitEdgesJoin(graph: Graph, message: string -> string, edge: Edge)
    requires Issues(graph, message) == [] && edge in graph.edges
    ensures edge.source in Ids(graph.nodes) && edge.target in Ids(graph.nodes)
  {
    IssuesAreFaults(graph, message, MissingSource(edge.id, edge.source));
    IssuesAreFaults(graph, message, MissingTarget(edge.id, edge.target));
  }

  lemma DerivedEdgesJoinNodes(graph: Graph, message: string -> string, edge: Edge)
    requires Issues(graph, message) == [] && edge in DerivedEdges(graph.nodes)
    ensures edge.source in Ids(graph.nodes) && edge.target in Ids(graph.nodes)
  {
    DerivedEdgesJoin(graph.nodes, edge);
    var node :| node in graph.nodes && edge.source == node.id && edge.target in node.children;
    IssuesAreFaults(graph, message, MissingChild(node.id, edge.target));
  }

  /** Every edge of a drawn graph joins two drawn nodes, and the drawn nodes carry exactly
      the registry's ids. */
  lemma DrawnEdgesJoinDrawnNodes(graph: Graph, message: string -> string, edge: Edge)
    requires Draw(graph, message).Drawn? && edge in Draw(graph, message).edges
    ensures edge.source in Ids(Draw(graph, message).nodes) && edge.target in Ids(Draw(graph, message).nodes)
    ensures Ids(Draw(graph, message).nodes) == Ids(graph.nodes)
  {
    OrderKeepsIds(graph);
    if graph.edges != [] {
      ExplicitEdgesJoin(graph, message, edge);
    } else {
      DerivedEdgesJoinNodes(graph, message, edge);
    }
  }

  /** A graph is drawn exactly when every label key has a message and every child id and
      explicit endpoint is the id of a node. */
  ghost predicate Closed(graph: Graph, message: string -> string) {
    && (forall node :: node in graph.nodes ==> message(node.labelKey) != node.labelKey)
    && (forall node, child :: node in graph.nodes && child in node.children ==> child in Ids(graph.nodes))
    && forall edge :: edge in graph.edges ==> edge.source in Ids(graph.nodes) && edge.target in Ids(graph.nodes)
  }

  lemma DrawnIffClosed(graph: Graph, message: string -> string)
    ensures Draw(graph, message).Drawn? <==> Closed(graph, message)
  {
    var issues := Issues(graph, message);
    if issues != [] {
      assert issues[0] in issues;
      IssuesAreFaults(graph, message, issues[0]);
    } else {
      forall node | node in graph.nodes ensures message(node.labelKey) != node.labelKey {
        IssuesAreFaults(graph, message, MissingLabel(node.labelKey));
      }
      forall node, child | node in graph.nodes && child in node.children ensures child in Ids(graph.nodes) {
        IssuesAreFaults(graph, message, MissingChild(node.id, child));
      }
      forall edge | edge in graph.edges ensures edge.source in Ids(graph.nodes) && edge.target in Ids(graph.nodes) {
        IssuesAreFaults(graph, message, MissingSource(edge.id, edge.source));
        IssuesAreFaults(graph, message, MissingTarget(edge.id, edge.target));
      }
    }
  }

  // ---------------------------------------------------------------- the chain generator

  datatype ChainError = NoNodes | NoTarget

  datatype ChainResult = Chained(graph: Graph) | Failed(error: ChainError)

  /** The node for position `i`; an empty next id is falsy and gives no child. */
  function ChainNode(ids: seq<string>, i: nat): Node
    requires i < |ids|
  {
    Node(ids[i], "graph.nodes." + ids[i] + ".label", if i == 0 then Input else Other,
         if i + 1 < |ids| && ids[i + 1] != "" then [ids[i + 1]] else [])
  }

  function ChainNodes(ids: seq<string>): seq<Node> {
    seq(|ids|, i requires 0 <= i < |ids| => ChainNode(ids, i))
  }

  function ChainEdges(ids: seq<string>): seq<Edge> {
    seq(if ids == [] then 0 else |ids| - 1,
        i requires 0 <= i < |ids| - 1 => Edge(ids[i] + "-to-" + ids[i + 1], ids[i], ids[i + 1]))
  }

  /** `ids` are the keys of the specification's node table in enumeration order. */
  function Chain(ids: seq<string>): ChainResult {
    if ids == [] || ids[0] == "" then Failed(NoNodes)
    else if "" in ids then Failed(NoTarget)
    else Chained(Graph(ids[0], ChainNodes(ids), ChainEdges(ids)))
  }

  method BuildGraphStructure(nodeIds: seq<string>) returns (result: ChainResult)
    ensures result == Chain(nodeIds)
  {
    if |nodeIds| == 0 {
      return Failed(NoNodes);
    }
    var rootNodeId := nodeIds[0];
    if rootNodeId == "" {
      return Failed(NoNodes);
    }
    var nodes: seq<Node> := [];
    for i := 0 to |nodeIds|
      invariant nodes == ChainNodes(nodeIds)[..i]
    {
      nodes := nodes + [ChainNode(nodeIds, i)];
    }
    var edges: seq<Edge> := [];
    for i := 0 to |nodeIds| - 1
      invariant edges == ChainEdges(nodeIds)[..i]
      invariant forall k :: 0 <= k <= i ==> nodeIds[k] != ""
    {
      var target := nodeIds[i + 1];
      if target == "" {
        return Failed(NoTarget);
      }
      edges := edges + [Edge(nodeIds[i] + "-to-" + target, nodeIds[i], target)];
    }
    result := Chained(Graph(rootNodeId, nodes, edges));
  }

  lemma ChainIds(ids: seq<string>)
    ensures Ids(ChainNodes(ids)) == set id | id in ids
  {
    forall id ensures id in Ids(ChainNodes(ids)) <==> id in ids {
      if id in ids {
        var i :| 0 <= i < |ids| && ids[i] == id;
        assert ChainNodes(ids)[i].id == id && ChainNodes(ids)[i] in ChainNodes(ids);
      }
    }
  }

  lemma ChainChildrenAreKnown(ids: seq<string>, node: Node, child: string)
    requires node in ChainNodes(ids) && child in node.children
    ensures child in Ids(ChainNodes(ids))
  {
    ChainIds(ids);
    var i :| 0 <= i < |ids| && ChainNodes(ids)[i] == node;
    assert child == ids[i + 1];
  }

  lemma ChainEndpointsAreKnown(ids: seq<string>, edge: Edge)
    requires edge in ChainEdges(ids)
    ensures edge.source in Ids(ChainNodes(ids)) && edge.target in Ids(ChainNodes(ids))
  {
    ChainIds(ids);
    var i :| 0 <= i < |ChainEdges(ids)| && ChainEdges(ids)[i] == edge;
    assert edge.source == ids[i] && edge.target == ids[i + 1];
  }

  lemma ChainIsClosedIff(ids: seq<string>, message: string -> string, graph: Graph)
    requires graph.nodes == ChainNodes(ids) && graph.edges == ChainEdges(ids)
    ensures Closed(graph, message) <==> HasMessages(graph.nodes, message)
  {
    forall node, child | node in graph.nodes && child in node.children ensures child in Ids(graph.nodes) {
      ChainChildrenAreKnown(ids, node, child);
    }
    forall edge | edge in graph.edges ensures edge.source in Ids(graph.nodes) && edge.target in Ids(graph.nodes) {
      ChainEndpointsAreKnown(ids, edge);
    }
  }

  /** The generator succeeds exactly on non-empty lists without an empty id, and the graph
      it makes is closed: drawing it can only fail for want of a message for a label. */
  lemma ChainIsClosed(ids: seq<string>, message: string -> string)
    ensures Chain(ids).Chained? <==> ids != [] && "" !in ids
    ensures Chain(ids).Chained? ==> (Draw(Chain(ids).graph, message).Drawn? <==> HasMessages(ChainNodes(ids), message))
  {
    if Chain(ids).Chained? {
      DrawnIffClosed(Chain(ids).graph, message);
      ChainIsClosedIff(ids, message, Chain(ids).graph);
    }
  }

  ghost predicate HasMessages(nodes: seq<Node>, message: string -> string) {
    forall node :: node in nodes ==> message(node.labelKey) != node.labelKey
  }

  /** Nodes with distinct ids, each the one parent of the next. */
  ghost predicate IsChain(nodes: seq<Node>) {
    && DistinctIds(nodes)
    && (nodes != [] ==> nodes[|nodes| - 1].children == [])
    && forall i :: 0 <= i < |nodes| - 1 ==> nodes[i].children == [nodes[i + 1].id]
  }

  lemma GeneratedIsChain(ids: seq<string>)
    requires Distinct(ids) && "" !in ids
    ensures IsChain(ChainNodes(ids))
  {
    var nodes := ChainNodes(ids);
    forall i | 0 <= i < |nodes| - 1 ensures nodes[i].children == [nodes[i + 1].id] {
      assert ids[i + 1] in ids;
    }
  }

  lemma {:induction false} ChainWalk(byId: Index, nodes: seq<Node>, i: nat)
    requires IsChain(nodes) && i < |nodes|
    requires forall node :: node in nodes ==> node.id in byId && byId[node.id] == node
    ensures Visit(byId, Walk(Ids(nodes[..i]), nodes[..i]), nodes[i].id) == Walk(Ids(nodes), nodes)
    decreases |nodes| - i
  {
    var walk := Walk(Ids(nodes[..i]), nodes[..i]);
    var node := nodes[i];
    assert node.id !in walk.seen;
    assert nodes[..i + 1] == nodes[..i] + [node];
    var entered := Walk(Ids(nodes[..i + 1]), nodes[..i + 1]);
    assert entered.seen == walk.seen + {node.id};
    assert Visit(byId, walk, node.id) == VisitAll(byId, entered, node.children);
    if i + 1 < |nodes| {
      ChainWalk(byId, nodes, i + 1);
      VisitOne(byId, entered, nodes[i + 1].id);
    } else {
      assert nodes[..i + 1] == nodes;
      assert entered == Walk(Ids(nodes), nodes);
    }
  }

  lemma VisitOne(byId: Index, walk: Walk, id: string)
    ensures VisitAll(byId, walk, [id]) == Visit(byId, walk, id)
  {
    var after := Visit(byId, walk, id);
    assert VisitAll(byId, after, [id][1..]) == after;
  }

  /** A generated chain is ordered as its specification lists it. */
  lemma ChainIsInSpecOrder(ids: seq<string>)
    requires Distinct(ids) && Chain(ids).Chained?
    ensures Order(Chain(ids).graph) == ChainNodes(ids)
  {
    var graph := Chain(ids).graph;
    GeneratedIsChain(ids);
    DistinctIdsAreIndexed(graph.nodes);
    ChainWalk(ById(graph.nodes), graph.nodes, 0);
    assert Walk(Ids(graph.nodes[..0]), graph.nodes[..0]) == Walk({}, []);
    NothingLeft(graph.nodes, Ids(graph.nodes));
  }

  lemma DistinctIdsAreIndexed(nodes: seq<Node>)
    requires DistinctIds(nodes)
    ensures forall node :: node in nodes ==> node.id in ById(nodes) && ById(nodes)[node.id] == node
  {
    forall node | node in nodes ensures ById(nodes)[node.id] == node {
      var found := ById(nodes)[node.id];
      var i, j :| 0 <= i < |nodes| && 0 <= j < |nodes| && nodes[i] == node && nodes[j] == found;
      assert i == j;
    }
  }

  lemma {:induction false} NothingLeft(nodes: seq<Node>, seen: set<string>)
    requires forall node :: node in nodes ==> node.id in seen
    ensures Filter(nodes, (node: Node) => node.id !in seen) == []
  {
    if nodes != [] {
      NothingLeft(nodes[1..], seen);
    }
  }

  ghost predicate Joins(edge: Edge, source: string, target: string) {
    edge.source == source && edge.target == target
  }

  /** Dropping a chain's explicit edges changes no connection: the edges derived from the
      child ids join the same nodes in the same order. */
  lemma ChainEdgesMatchDerived(ids: seq<string>)
    requires Distinct(ids) && Chain(ids).Chained?
    ensures |Chain(ids).graph.edges| == |DerivedEdges(Chain(ids).graph.nodes)| == |ids| - 1
    ensures forall i :: 0 <= i < |ids| - 1 ==> Joins(Chain(ids).graph.edges[i], ids[i], ids[i + 1])
    ensures forall i :: 0 <= i < |ids| - 1 ==> Joins(DerivedEdges(Chain(ids).graph.nodes)[i], ids[i], ids[i + 1])
  {
    GeneratedIsChain(ids);
    var nodes := ChainNodes(ids);
    DerivedOfChain(nodes);
    forall i | 0 <= i < |ids| - 1 ensures Joins(DerivedEdges(nodes)[i], ids[i], ids[i + 1]) {
      assert Joins(DerivedEdges(nodes)[i], nodes[i].id, nodes[i + 1].id);
    }
  }

  lemma DerivedOfChain(nodes: seq<Node>)
    requires IsChain(nodes) && nodes != []
    ensures |DerivedEdges(nodes)| == |nodes| - 1
    ensures forall i :: 0 <= i < |nodes| - 1 ==> Joins(DerivedEdges(nodes)[i], nodes[i].id, nodes[i + 1].id)
  {
    var last := nodes[|nodes| - 1];
    DerivedOfPrefix(nodes, |nodes| - 1);
    assert ChildEdges(last.id, []) == [];
    assert DerivedEdges(nodes) == DerivedEdges(nodes[..|nodes| - 1]) + ChildEdges(last.id, last.children);
  }

  lemma {:induction false} DerivedOfPrefix(nodes: seq<Node>, n: nat)
    requires IsChain(nodes) && n < |nodes|
    ensures |DerivedEdges(nodes[..n])| == n
    ensures forall i :: 0 <= i < n ==> Joins(DerivedEdges(nodes[..n])[i], nodes[i].id, nodes[i + 1].id)
  {
    if n > 0 {
      DerivedOfPrefix(nodes, n - 1);
      assert nodes[..n][..n - 1] == nodes[..n - 1] && nodes[..n][n - 1] == nodes[n - 1];
      OneChildEdge(nodes[n - 1].id, nodes[n].id);
    }
  }

  lemma OneChildEdge(id: string, child: string)
    ensures ChildEdges(id, [child]) == [Edge(id + "->" + child, id, child)]
  {
    assert [child][..0] == [];
  }
}

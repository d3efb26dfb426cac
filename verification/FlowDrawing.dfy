/** What a drawing of a registry graph shows, told from the graph. */
module FlowDrawing {
  import opened Common
  import opened Listing
  import opened GraphOrder
  import opened FlowGraph

  // ----- Nodes and edges -----

  /** How many children the first `n` nodes have together. */
  function ChildCount(nodes: seq<Node>, n: nat): nat
    requires n <= |nodes|
  {
    if n == 0 then 0 else ChildCount(nodes, n - 1) + |nodes[n - 1].children|
  }

  lemma {:induction false} ChildEdgeAt(id: string, children: seq<string>, j: nat)
    ensures |ChildEdges(id, children)| == |children|
    ensures j < |children| ==> ChildEdges(id, children)[j] == Edge(id + "->" + children[j], id, children[j])
  {
    if children != [] {
      ChildEdgeAt(id, children[..|children| - 1], j);
    }
  }

  lemma DerivedEdgesGrow(nodes: seq<Node>, n: nat)
    requires n < |nodes|
    ensures DerivedEdges(nodes[..n + 1]) == DerivedEdges(nodes[..n]) + ChildEdges(nodes[n].id, nodes[n].children)
  {
    assert nodes[..n + 1][..n] == nodes[..n];
  }

  lemma {:induction false} DerivedEdgeCount(nodes: seq<Node>, n: nat)
    requires n <= |nodes|
    ensures |DerivedEdges(nodes[..n])| == ChildCount(nodes, n)
  {
    if n > 0 {
      DerivedEdgeCount(nodes, n - 1);
      DerivedEdgesGrow(nodes, n - 1);
      ChildEdgeAt(nodes[n - 1].id, nodes[n - 1].children, 0);
    }
  }

  ghost predicate EdgeIsAt(nodes: seq<Node>, edges: seq<Edge>, i: nat, j: nat)
    requires i < |nodes| && j < |nodes[i].children|
  {
    var at := ChildCount(nodes, i) + j;
    && at < |edges|
    && edges[at] == Edge(nodes[i].id + "->" + nodes[i].children[j], nodes[i].id, nodes[i].children[j])
  }

  lemma {:induction false} EdgeStaysAt(nodes: seq<Node>, edges: seq<Edge>, more: seq<Edge>, i: nat, j: nat)
    requires i < |nodes| && j < |nodes[i].children| && EdgeIsAt(nodes, edges, i, j)
    ensures EdgeIsAt(nodes, edges + more, i, j)
  {
  }

  lemma {:induction false} LastNodesEdgeIsAt(nodes: seq<Node>, edges: seq<Edge>, i: nat, j: nat)
    requires i < |nodes| && j < |nodes[i].children| && |edges| == ChildCount(nodes, i)
    ensures EdgeIsAt(nodes, edges + ChildEdges(nodes[i].id, nodes[i].children), i, j)
  {
    var more := ChildEdges(nodes[i].id, nodes[i].children);
    ChildEdgeAt(nodes[i].id, nodes[i].children, j);
    assert (edges + more)[|edges| + j] == more[j];
  }

  lemma {:induction false} DerivedEdgeAt(nodes: seq<Node>, n: nat, i: nat, j: nat)
    requires i < n <= |nodes| && j < |nodes[i].children|
    ensures EdgeIsAt(nodes, DerivedEdges(nodes[..n]), i, j)
  {
    DerivedEdgesGrow(nodes, n - 1);
    if i == n - 1 {
      DerivedEdgeCount(nodes, i);
      LastNodesEdgeIsAt(nodes, DerivedEdges(nodes[..i]), i, j);
    } else {
      DerivedEdgeAt(nodes, n - 1, i, j);
      EdgeStaysAt(nodes, DerivedEdges(nodes[..n - 1]), ChildEdges(nodes[n - 1].id, nodes[n - 1].children), i, j);
    }
  }

  /** The edges of a drawing: the explicit ones if there are any; otherwise one from each
      node to each of its children, node by node and child by child, and no more. */
  lemma DrawnEdgesAre(graph: Graph, message: string -> string)
    requires Draw(graph, message).Drawn?
    ensures var edges := Draw(graph, message).edges;
      && (graph.edges != [] ==> edges == graph.edges)
      && (graph.edges == [] ==>
            && |edges| == ChildCount(graph.nodes, |graph.nodes|)
            && forall i, j | 0 <= i < |graph.nodes| && 0 <= j < |graph.nodes[i].children| ::
                 EdgeIsAt(graph.nodes, edges, i, j))
  {
    var nodes := graph.nodes;
    TakeAll(nodes);
    if graph.edges == [] {
      DerivedEdgeCount(nodes, |nodes|);
      forall i, j | 0 <= i < |nodes| && 0 <= j < |nodes[i].children|
        ensures EdgeIsAt(nodes, DerivedEdges(nodes), i, j)
      {
        DerivedEdgeAt(nodes, |nodes|, i, j);
      }
    }
  }

  /** The nodes of a drawing: those the root reaches, once each and after a parent, then the
      others in registry order. */
  lemma DrawnNodesAre(graph: Graph, message: string -> string) returns (reached: seq<Node>)
    requires Draw(graph, message).Drawn?
    ensures Draw(graph, message).nodes == reached + Filter(graph.nodes, (node: Node) => !Reached(graph, node.id))
    ensures ListsReached(ById(graph.nodes), graph.root, reached)
    ensures forall k :: 0 < k < |reached| ==> HasParentBefore(reached, k)
  {
    reached := OrderIsReachableThenRest(graph);
  }

  // ----- Issues -----

  /** The fault at a place: part 0 walks the nodes, each label before its children; part 1
      the explicit edges, each source before its target. */
  function FaultAt(graph: Graph, message: string -> string): Place -> Found<Issue> {
    (p: Place) =>
      if p.inner != 0 then Nothing
      else if p.part == 0 && p.outer < |graph.nodes| then NodeFaultAt(graph, message, p.outer, p.middle)
      else if p.part == 1 && p.outer < |graph.edges| then EdgeFaultAt(graph, p.outer, p.middle)
      else Nothing
  }

  function NodeFaultAt(graph: Graph, message: string -> string, i: nat, j: nat): Found<Issue>
    requires i < |graph.nodes|
  {
    var node := graph.nodes[i];
    if j == 0 then if message(node.labelKey) == node.labelKey then Found(MissingLabel(node.labelKey)) else Nothing
    else if j > |node.children| || node.children[j - 1] in Ids(graph.nodes) then Nothing
    else Found(MissingChild(node.id, node.children[j - 1]))
  }

  function EdgeFaultAt(graph: Graph, e: nat, j: nat): Found<Issue>
    requires e < |graph.edges|
  {
    var edge := graph.edges[e];
    if j == 0 && edge.source !in Ids(graph.nodes) then Found(MissingSource(edge.id, edge.source))
    else if j == 1 && edge.target !in Ids(graph.nodes) then Found(MissingTarget(edge.id, edge.target))
    else Nothing
  }

  /** One step of a loop: what it finds at `p`, up to the next place `high`. */
  lemma OneStep(graph: Graph, message: string -> string, p: Place, high: Place, items: seq<Issue>)
    returns (places: seq<Place>)
    requires Below(p, high) && forall q :: Below(p, q) && Below(q, high) ==> FaultAt(graph, message)(q).Nothing?
    requires items == if FaultAt(graph, message)(p).Found? then [FaultAt(graph, message)(p).item] else []
    ensures Lists(FaultAt(graph, message), items, places, p, high)
  {
    var at := FaultAt(graph, message);
    if at(p).Found? {
      places := [p];
      ListsOne(at, p, at(p).item, high);
    } else {
      places := [];
      forall q | !Below(q, p) && Below(q, high) ensures at(q).Nothing? {
        assert q == p || Below(p, q);
      }
      ListsNothing(at, p, high);
    }
  }

  lemma {:induction false} ChildIssuesAre(graph: Graph, message: string -> string, i: nat, n: nat)
    returns (places: seq<Place>)
    requires i < |graph.nodes| && n <= |graph.nodes[i].children|
    ensures var node := graph.nodes[i];
      Lists(FaultAt(graph, message), ChildIssues(Ids(graph.nodes), node.id, node.children[..n]), places,
            Place(0, i, 1, 0), Place(0, i, n + 1, 0))
  {
    var at, known, node := FaultAt(graph, message), Ids(graph.nodes), graph.nodes[i];
    if n == 0 {
      places := [];
      ListsNothing(at, Place(0, i, 1, 0), Place(0, i, 1, 0));
    } else {
      var before := ChildIssuesAre(graph, message, i, n - 1);
      var items := if node.children[n - 1] in known then [] else [MissingChild(node.id, node.children[n - 1])];
      var more := OneStep(graph, message, Place(0, i, n, 0), Place(0, i, n + 1, 0), items);
      assert node.children[..n][..n - 1] == node.children[..n - 1];
      assert ChildIssues(known, node.id, node.children[..n])
          == ChildIssues(known, node.id, node.children[..n - 1]) + items;
      places := before + more;
      ListsConcatenation(at, ChildIssues(known, node.id, node.children[..n - 1]), before, items, more,
                         Place(0, i, 1, 0), Place(0, i, n, 0), Place(0, i, n + 1, 0));
    }
  }

  lemma NodeIssuesAre(graph: Graph, message: string -> string, i: nat) returns (places: seq<Place>)
    requires i < |graph.nodes|
    ensures Lists(FaultAt(graph, message), NodeIssues(Ids(graph.nodes), message, graph.nodes[i]), places,
                  Place(0, i, 0, 0), Place(0, i + 1, 0, 0))
  {
    var at, known, node := FaultAt(graph, message), Ids(graph.nodes), graph.nodes[i];
    var childIssues, n := ChildIssues(known, node.id, node.children), |node.children|;
    var items := if message(node.labelKey) == node.labelKey then [MissingLabel(node.labelKey)] else [];
    var first := OneStep(graph, message, Place(0, i, 0, 0), Place(0, i, 1, 0), items);
    var children := ChildIssuesAre(graph, message, i, n);
    TakeAll(node.children);
    ListsConcatenation(at, items, first, childIssues, children,
                       Place(0, i, 0, 0), Place(0, i, 1, 0), Place(0, i, n + 1, 0));
    ListsNothing(at, Place(0, i, n + 1, 0), Place(0, i + 1, 0, 0));
    places := first + children + [];
    ListsConcatenation(at, items + childIssues, first + children, [], [],
                       Place(0, i, 0, 0), Place(0, i, n + 1, 0), Place(0, i + 1, 0, 0));
    assert items + childIssues + [] == NodeIssues(known, message, node);
  }

  lemma AllNodeIssuesGrow(known: set<string>, message: string -> string, nodes: seq<Node>, n: nat)
    requires n < |nodes|
    ensures AllNodeIssues(known, message, nodes[..n + 1])
         == AllNodeIssues(known, message, nodes[..n]) + NodeIssues(known, message, nodes[n])
  {
    assert nodes[..n + 1][..n] == nodes[..n];
  }

  lemma {:induction false} AllNodeIssuesAre(graph: Graph, message: string -> string, n: nat)
    returns (places: seq<Place>)
    requires n <= |graph.nodes|
    ensures Lists(FaultAt(graph, message), AllNodeIssues(Ids(graph.nodes), message, graph.nodes[..n]), places,
                  Place(0, 0, 0, 0), Place(0, n, 0, 0))
  {
    var at, known, nodes := FaultAt(graph, message), Ids(graph.nodes), graph.nodes;
    if n == 0 {
      places := [];
      ListsNothing(at, Place(0, 0, 0, 0), Place(0, 0, 0, 0));
    } else {
      var before := AllNodeIssuesAre(graph, message, n - 1);
      var more := NodeIssuesAre(graph, message, n - 1);
      AllNodeIssuesGrow(known, message, nodes, n - 1);
      places := before + more;
      ListsConcatenation(at, AllNodeIssues(known, message, nodes[..n - 1]), before,
                         NodeIssues(known, message, nodes[n - 1]), more,
                         Place(0, 0, 0, 0), Place(0, n - 1, 0, 0), Place(0, n, 0, 0));
    }
  }

  lemma EdgeIssuesAre(graph: Graph, message: string -> string, e: nat) returns (places: seq<Place>)
    requires e < |graph.edges|
    ensures Lists(FaultAt(graph, message), EdgeIssues(Ids(graph.nodes), graph.edges[e]), places,
                  Place(1, e, 0, 0), Place(1, e + 1, 0, 0))
  {
    var at, known, edge := FaultAt(graph, message), Ids(graph.nodes), graph.edges[e];
    var source := if edge.source in known then [] else [MissingSource(edge.id, edge.source)];
    var target := if edge.target in known then [] else [MissingTarget(edge.id, edge.target)];
    var first := OneStep(graph, message, Place(1, e, 0, 0), Place(1, e, 1, 0), source);
    var second := OneStep(graph, message, Place(1, e, 1, 0), Place(1, e + 1, 0, 0), target);
    places := first + second;
    ListsConcatenation(at, source, first, target, second,
                       Place(1, e, 0, 0), Place(1, e, 1, 0), Place(1, e + 1, 0, 0));
    assert source + target == EdgeIssues(known, edge);
  }

  lemma {:induction false} AllEdgeIssuesAre(graph: Graph, message: string -> string, n: nat)
    returns (places: seq<Place>)
    requires n <= |graph.edges|
    ensures Lists(FaultAt(graph, message), AllEdgeIssues(Ids(graph.nodes), graph.edges[..n]), places,
                  Place(1, 0, 0, 0), Place(1, n, 0, 0))
  {
    var at, known, edges := FaultAt(graph, message), Ids(graph.nodes), graph.edges;
    if n == 0 {
      places := [];
      ListsNothing(at, Place(1, 0, 0, 0), Place(1, 0, 0, 0));
    } else {
      var before := AllEdgeIssuesAre(graph, message, n - 1);
      var more := EdgeIssuesAre(graph, message, n - 1);
      assert edges[..n][..n - 1] == edges[..n - 1];
      places := before + more;
      ListsConcatenation(at, AllEdgeIssues(known, edges[..n - 1]), before, EdgeIssues(known, edges[n - 1]), more,
                         Place(1, 0, 0, 0), Place(1, n - 1, 0, 0), Place(1, n, 0, 0));
    }
  }

  /** A rejected graph's issues are its faults, each once, in the order of the places: labels
      and children node by node, then sources and targets edge by edge. */
  lemma RejectedIssuesAre(graph: Graph, message: string -> string) returns (places: seq<Place>)
    requires Draw(graph, message).Rejected?
    ensures Lists(FaultAt(graph, message), Draw(graph, message).issues, places, Place(0, 0, 0, 0), Place(2, 0, 0, 0))
    ensures forall p :: FaultAt(graph, message)(p).Found? ==> p in places
  {
    var at, n, m := FaultAt(graph, message), |graph.nodes|, |graph.edges|;
    var nodeIssues := AllNodeIssues(Ids(graph.nodes), message, graph.nodes);
    var edgeIssues := AllEdgeIssues(Ids(graph.nodes), graph.edges);
    var a := AllNodeIssuesAre(graph, message, n);
    var b := AllEdgeIssuesAre(graph, message, m);
    TakeAll(graph.nodes);
    TakeAll(graph.edges);
    ListsNothing(at, Place(0, n, 0, 0), Place(1, 0, 0, 0));
    ListsNothing(at, Place(1, m, 0, 0), Place(2, 0, 0, 0));
    ListsConcatenation(at, nodeIssues, a, [], [], Place(0, 0, 0, 0), Place(0, n, 0, 0), Place(1, 0, 0, 0));
    ListsConcatenation(at, edgeIssues, b, [], [], Place(1, 0, 0, 0), Place(1, m, 0, 0), Place(2, 0, 0, 0));
    assert nodeIssues + [] == nodeIssues && edgeIssues + [] == edgeIssues;
    places := (a + []) + (b + []);
    ListsConcatenation(at, nodeIssues, a + [], edgeIssues, b + [],
                       Place(0, 0, 0, 0), Place(1, 0, 0, 0), Place(2, 0, 0, 0));
  }

  // ----- Generated chains -----

  function LabelKey(id: string): string { "graph.nodes." + id + ".label" }

  ghost predicate IsLink(ids: seq<string>, nodes: seq<Node>, i: nat)
    requires i < |ids|
  {
    && i < |nodes| && nodes[i].id == ids[i] && nodes[i].labelKey == LabelKey(ids[i])
    && (nodes[i].kind == Input <==> i == 0)
    && nodes[i].children == if i + 1 < |ids| then [ids[i + 1]] else []
  }

  /** A specification is refused for want of nodes when it has none or the first id is
      empty, for want of a target when a later id is empty, and otherwise drawn exactly if
      every label has a message: a row of nodes in specification order, the first the input,
      with one edge from each to the next. */
  lemma ChainIsDrawn(ids: seq<string>, message: string -> string)
    requires Distinct(ids)
    ensures Chain(ids) == Failed(NoNodes) <==> ids == [] || ids[0] == ""
    ensures Chain(ids) == Failed(NoTarget) <==> ids != [] && ids[0] != "" && "" in ids
    ensures Chain(ids).Chained? ==>
      var drawing := Draw(Chain(ids).graph, message);
      && Chain(ids).graph.root == ids[0]
      && (drawing.Drawn? <==> forall id :: id in ids ==> message(LabelKey(id)) != LabelKey(id))
      && (drawing.Drawn? ==>
            && |drawing.nodes| == |ids| && (forall i :: 0 <= i < |ids| ==> IsLink(ids, drawing.nodes, i))
            && |drawing.edges| == |ids| - 1
            && forall i :: 0 <= i < |ids| - 1 ==> IsLinkEdge(ids, drawing.edges, i))
  {
    if Chain(ids).Chained? {
      ChainIsClosed(ids, message);
      ChainLabels(ids, message);
      ChainIsInSpecOrder(ids);
      LinksOfChain(ids);
      if Draw(Chain(ids).graph, message).Drawn? {
        DrawnEdgesOfChain(ids, message);
      }
    }
  }

  lemma LinksOfChain(ids: seq<string>)
    requires "" !in ids
    ensures forall i :: 0 <= i < |ids| ==> IsLink(ids, ChainNodes(ids), i)
  {
    forall i | 0 <= i < |ids| ensures IsLink(ids, ChainNodes(ids), i) {
      assert i + 1 < |ids| ==> ids[i + 1] in ids;
    }
  }

  ghost predicate IsLinkEdge(ids: seq<string>, edges: seq<Edge>, i: nat)
    requires i + 1 < |ids|
  {
    i < |edges| && edges[i] == Edge(ids[i] + "-to-" + ids[i + 1], ids[i], ids[i + 1])
  }

  lemma ChainLabels(ids: seq<string>, message: string -> string)
    ensures HasMessages(ChainNodes(ids), message) <==> forall id :: id in ids ==> message(LabelKey(id)) != LabelKey(id)
  {
    var nodes := ChainNodes(ids);
    if HasMessages(nodes, message) {
      forall id | id in ids ensures message(LabelKey(id)) != LabelKey(id) {
        var i :| 0 <= i < |ids| && ids[i] == id;
        assert nodes[i] in nodes && nodes[i].labelKey == LabelKey(id);
      }
    }
    forall node | node in nodes ensures exists id :: id in ids && node.labelKey == LabelKey(id) {
      var i :| 0 <= i < |nodes| && nodes[i] == node;
      assert ids[i] in ids && node.labelKey == LabelKey(ids[i]);
    }
  }

  lemma LinkEdgesOfChain(ids: seq<string>)
    requires ids != []
    ensures |ChainEdges(ids)| == |ids| - 1 && forall i :: 0 <= i < |ids| - 1 ==> IsLinkEdge(ids, ChainEdges(ids), i)
  {
  }

  /** A single node has no explicit edge, and none is derived for it. */
  lemma LoneNodeHasNoEdge(id: string)
    ensures ChildCount(ChainNodes([id]), 1) == 0
  {
    assert ChildCount(ChainNodes([id]), 1) == ChildCount(ChainNodes([id]), 0) + |ChainNodes([id])[0].children|;
  }

  lemma DrawnEdgesOfChain(ids: seq<string>, message: string -> string)
    requires Chain(ids).Chained? && Draw(Chain(ids).graph, message).Drawn?
    ensures var edges := Draw(Chain(ids).graph, message).edges;
      |edges| == |ids| - 1 && forall i :: 0 <= i < |ids| - 1 ==> IsLinkEdge(ids, edges, i)
  {
    DrawnEdgesAre(Chain(ids).graph, message);
    LinkEdgesOfChain(ids);
    if |ids| == 1 {
      assert ids == [ids[0]];
      LoneNodeHasNoEdge(ids[0]);
    }
  }
}

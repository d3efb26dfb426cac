/** `orderGraphNodes`: a depth-first walk from the root over a registry graph that may be
    cyclic and may name children that do not exist, then the nodes it did not reach. */
module GraphOrder {
  import opened Common

  datatype ModuleKind = Input | Other

  datatype Node = Node(id: string, labelKey: string, kind: ModuleKind, children: seq<string>)

  datatype Edge = Edge(id: string, source: string, target: string)

  datatype Graph = Graph(root: string, nodes: seq<Node>, edges: seq<Edge>)

  type Index = map<string, Node>

  function NodeId(node: Node): string {
    node.id
  }

  function ById(nodes: seq<Node>): (r: Index)
    ensures forall id :: id in r ==> r[id] in nodes && r[id].id == id
    ensures forall node :: node in nodes ==> node.id in r
  {
    LastByIdHolds(nodes, NodeId);
    LastById(nodes, NodeId)
  }

  /** Of nodes with one id the index keeps the last. */
  lemma IndexKeepsLast(nodes: seq<Node>, i: nat)
    requires i < |nodes| && forall j :: i < j < |nodes| ==> nodes[j].id != nodes[i].id
    ensures nodes[i].id in ById(nodes) && ById(nodes)[nodes[i].id] == nodes[i]
  {
    LastByIdIsLast(nodes, NodeId, i);
  }

  function Ids(nodes: seq<Node>): set<string> {
    set node | node in nodes :: node.id
  }

  /** What the closure shares between calls of `visit`. */
  datatype Walk = Walk(seen: set<string>, ordered: seq<Node>)

  ghost function Unseen(byId: Index, seen: set<string>): nat {
    |byId.Keys - seen|
  }

  lemma UnseenShrinks(byId: Index, seen: set<string>, more: set<string>)
    requires seen <= more
    ensures Unseen(byId, more) <= Unseen(byId, seen)
  {
    SubsetIsSmaller(byId.Keys - more, byId.Keys - seen);
  }

  lemma UnseenDrops(byId: Index, seen: set<string>, id: string)
    requires id in byId && id !in seen
    ensures Unseen(byId, seen + {id}) < Unseen(byId, seen)
  {
    assert byId.Keys - (seen + {id}) == byId.Keys - seen - {id};
  }

  function Visit(byId: Index, walk: Walk, id: string): (r: Walk)
    ensures walk.seen <= r.seen
    decreases Unseen(byId, walk.seen), 0
  {
    if id in walk.seen || id !in byId then walk
    else
      UnseenDrops(byId, walk.seen, id);
      VisitAll(byId, Walk(walk.seen + {id}, walk.ordered + [byId[id]]), byId[id].children)
  }

  function VisitAll(byId: Index, walk: Walk, ids: seq<string>): (r: Walk)
    ensures walk.seen <= r.seen
    decreases Unseen(byId, walk.seen), |ids|
  {
    if ids == [] then walk
    else
      var next := Visit(byId, walk, ids[0]);
      UnseenShrinks(byId, walk.seen, next.seen);
      VisitAll(byId, next, ids[1..])
  }

  function Order(graph: Graph): seq<Node> {
    var walk := Visit(ById(graph.nodes), Walk({}, []), graph.root);
    walk.ordered + Filter(graph.nodes, (node: Node) => node.id !in walk.seen)
  }

  // ---------------------------------------------------------------- the source's form

  /** The closure of `orderGraphNodes` with the two collections `visit` updates. */
  class Orderer {
    const byId: Index
    var seen: set<string>
    var ordered: seq<Node>

    constructor (byId: Index)
      ensures this.byId == byId && seen == {} && ordered == []
    {
      this.byId := byId;
      seen := {};
      ordered := [];
    }

    ghost function State(): Walk
      reads this
    {
      Walk(seen, ordered)
    }

    method VisitNode(nodeId: string)
      modifies this
      ensures State() == Visit(byId, old(State()), nodeId)
      decreases Unseen(byId, seen)
    {
      if nodeId in seen || nodeId !in byId {
        return;
      }
      ghost var before := seen;
      var node := byId[nodeId];
      seen := seen + {nodeId};
      ordered := ordered + [node];
      UnseenDrops(byId, before, nodeId);
      ghost var entered := State();
      var i := 0;
      while i < |node.children|
        invariant 0 <= i <= |node.children|
        invariant entered.seen <= seen
        invariant VisitAll(byId, entered, node.children) == VisitAll(byId, State(), node.children[i..])
      {
        UnseenShrinks(byId, entered.seen, seen);
        VisitNode(node.children[i]);
        i := i + 1;
      }
    }
  }

  method AppendUnseen(nodes: seq<Node>, seen: set<string>, reached: seq<Node>) returns (ordered: seq<Node>)
    ensures ordered == reached + Filter(nodes, (node: Node) => node.id !in seen)
  {
    ordered := reached;
    ghost var unseen := (node: Node) => node.id !in seen;
    for i := 0 to |nodes|
      invariant ordered + Filter(nodes[i..], unseen) == reached + Filter(nodes, unseen)
    {
      FilterUnfolds(nodes, unseen, i);
      if nodes[i].id !in seen {
        ordered := ordered + [nodes[i]];
      }
    }
    assert ordered + [] == ordered;
  }

  method OrderGraphNodes(graph: Graph) returns (ordered: seq<Node>)
    ensures ordered == Order(graph)
  {
    var byId := IndexById(graph.nodes, NodeId);
    assert byId == ById(graph.nodes);
    var orderer := new Orderer(byId);
    orderer.VisitNode(graph.root);
    ordered := AppendUnseen(graph.nodes, orderer.seen, orderer.ordered);
  }

  // ---------------------------------------------------------------- what a walk adds

  /** `added` is what a walk from `before` to `after` appended: one node for each newly
      seen id, and nothing newly seen has an existing child left unseen. */
  ghost predicate Extends(byId: Index, before: Walk, after: Walk, added: seq<Node>) {
    && after.ordered == before.ordered + added
    && Distinct(added)
    && (forall node :: node in added ==> node.id in byId && byId[node.id] == node && node.id !in before.seen)
    && after.seen == before.seen + Ids(added)
    && forall node, child :: node in added && child in node.children && child in byId ==> child in after.seen
  }

  lemma ExtendsTrans(byId: Index, a: Walk, b: Walk, c: Walk, first: seq<Node>, second: seq<Node>)
    requires Extends(byId, a, b, first) && Extends(byId, b, c, second)
    ensures Extends(byId, a, c, first + second)
  {
    DistinctAppend(first, second);
    assert Ids(first + second) == Ids(first) + Ids(second);
  }

  /** Every node but those named in `ids` comes after one of its parents. */
  ghost predicate AfterParents(ids: seq<string>, added: seq<Node>) {
    forall k :: 0 <= k < |added| ==> added[k].id in ids || HasParentBefore(added, k)
  }

  ghost predicate HasParentBefore(added: seq<Node>, k: nat)
    requires k < |added|
  {
    exists j :: 0 <= j < k && added[k].id in added[j].children
  }

  ghost predicate SeenIfKnown(byId: Index, ids: seq<string>, walk: Walk) {
    forall id :: id in ids && id in byId ==> id in walk.seen
  }

  lemma VisitAllUnfolds(byId: Index, walk: Walk, ids: seq<string>)
    requires ids != []
    ensures VisitAll(byId, walk, ids) == VisitAll(byId, Visit(byId, walk, ids[0]), ids[1..])
  {
  }

  /** Everything a walk from `before` over `ids` guarantees about what it appends. */
  lemma {:induction false} VisitAllAdds(byId: Index, before: Walk, ids: seq<string>, after: Walk)
    returns (added: seq<Node>)
    requires IndexedById(byId) && after == VisitAll(byId, before, ids)
    ensures Extends(byId, before, after, added)
    ensures AfterParents(ids, added)
    ensures SeenIfKnown(byId, ids, after)
    decreases Unseen(byId, before.seen), |ids|, 1
  {
    if ids == [] {
      added := [];
    } else {
      added := FirstAndRestAdd(byId, before, ids, after);
    }
  }

  lemma {:induction false} FirstAndRestAdd(byId: Index, before: Walk, ids: seq<string>, after: Walk)
    returns (added: seq<Node>)
    requires IndexedById(byId) && ids != [] && after == VisitAll(byId, before, ids)
    ensures Extends(byId, before, after, added)
    ensures AfterParents(ids, added)
    ensures SeenIfKnown(byId, ids, after)
    decreases Unseen(byId, before.seen), |ids|, 0
  {
    var next := Visit(byId, before, ids[0]);
    UnseenShrinks(byId, before.seen, next.seen);
    var first := VisitAdds(byId, before, ids[0], next);
    VisitAllUnfolds(byId, before, ids);
    var second := VisitAllAdds(byId, next, ids[1..], after);
    added := first + second;
    Concatenate(byId, before, next, after, ids, first, second);
  }

  lemma Concatenate(byId: Index, a: Walk, b: Walk, c: Walk, ids: seq<string>, first: seq<Node>, second: seq<Node>)
    requires ids != [] && b.seen <= c.seen
    requires Extends(byId, a, b, first) && AfterParents([ids[0]], first) && (ids[0] in byId ==> ids[0] in b.seen)
    requires Extends(byId, b, c, second) && AfterParents(ids[1..], second) && SeenIfKnown(byId, ids[1..], c)
    ensures Extends(byId, a, c, first + second) && AfterParents(ids, first + second) && SeenIfKnown(byId, ids, c)
  {
    ExtendsTrans(byId, a, b, c, first, second);
    ParentsOfConcatenation(ids, first, second);
    SeenOfConcatenation(byId, ids, c);
  }

  lemma SeenOfConcatenation(byId: Index, ids: seq<string>, after: Walk)
    requires ids != [] && (ids[0] in byId ==> ids[0] in after.seen) && SeenIfKnown(byId, ids[1..], after)
    ensures SeenIfKnown(byId, ids, after)
  {
    assert ids == [ids[0]] + ids[1..];
  }

  lemma ParentsOfConcatenation(ids: seq<string>, first: seq<Node>, second: seq<Node>)
    requires ids != [] && AfterParents([ids[0]], first) && AfterParents(ids[1..], second)
    ensures AfterParents(ids, first + second)
  {
    var both := first + second;
    forall k | 0 <= k < |both| ensures both[k].id in ids || HasParentBefore(both, k) {
      if k < |first| {
        if both[k].id !in ids {
          var j :| 0 <= j < k && first[k].id in first[j].children;
          assert both[j] == first[j];
        }
      } else if both[k].id !in ids {
        var j :| 0 <= j < k - |first| && second[k - |first|].id in second[j].children;
        assert both[j + |first|] == second[j];
      }
    }
  }

  ghost predicate IndexedById(byId: Index) {
    forall id :: id in byId ==> byId[id].id == id
  }

  lemma {:induction false} VisitAdds(byId: Index, before: Walk, id: string, after: Walk) returns (added: seq<Node>)
    requires IndexedById(byId) && after == Visit(byId, before, id)
    ensures Extends(byId, before, after, added)
    ensures AfterParents([id], added)
    ensures id in byId ==> id in after.seen
    ensures added != [] ==> added[0].id == id
    decreases Unseen(byId, before.seen), 0
  {
    if id in before.seen || id !in byId {
      added := [];
    } else {
      var node := byId[id];
      var entered := Walk(before.seen + {id}, before.ordered + [node]);
      UnseenDrops(byId, before.seen, id);
      var rest := VisitAllAdds(byId, entered, node.children, after);
      added := [node] + rest;
      NodeThenRest(byId, before, entered, after, node, rest);
      RestAfterNode(node, rest);
    }
  }

  lemma RestAfterNode(node: Node, rest: seq<Node>)
    requires AfterParents(node.children, rest)
    ensures AfterParents([node.id], [node] + rest)
  {
    var added := [node] + rest;
    forall k | 0 < k < |added| ensures HasParentBefore(added, k) {
      if rest[k - 1].id in node.children {
        assert added[0] == node;
      } else {
        var j :| 0 <= j < k - 1 && rest[k - 1].id in rest[j].children;
        assert added[j + 1] == rest[j];
      }
    }
  }

  lemma NodeThenRest(byId: Index, before: Walk, entered: Walk, after: Walk, node: Node, rest: seq<Node>)
    requires node.id in byId && byId[node.id] == node && node.id !in before.seen
    requires entered == Walk(before.seen + {node.id}, before.ordered + [node])
    requires Extends(byId, entered, after, rest)
    requires forall id :: id in node.children && id in byId ==> id in after.seen
    ensures Extends(byId, before, after, [node] + rest)
  {
    DistinctAppend([node], rest);
    assert Ids([node] + rest) == {node.id} + Ids(rest);
    assert before.ordered + ([node] + rest) == entered.ordered + rest;
  }

  // ---------------------------------------------------------------- reachability

  ghost predicate IsPath(byId: Index, path: seq<string>) {
    && path != []
    && (forall i :: 0 <= i < |path| ==> path[i] in byId)
    && forall i :: 0 < i < |path| ==> Follows(byId, path, i)
  }

  ghost predicate Follows(byId: Index, path: seq<string>, i: nat)
    requires 0 < i < |path|
  {
    path[i - 1] in byId && path[i] in byId[path[i - 1]].children
  }

  ghost predicate PathTo(byId: Index, path: seq<string>, from: string, to: string) {
    IsPath(byId, path) && path[0] == from && path[|path| - 1] == to
  }

  /** A chain of existing nodes leads from `from` to `to`, each a child of the one before. */
  ghost predicate Reachable(byId: Index, from: string, to: string) {
    exists path :: PathTo(byId, path, from, to)
  }

  lemma ReachableStep(byId: Index, from: string, mid: string, to: string)
    requires Reachable(byId, from, mid) && mid in byId && to in byId && to in byId[mid].children
    ensures Reachable(byId, from, to)
  {
    var path :| PathTo(byId, path, from, mid);
    var longer := path + [to];
    forall i | 0 < i < |longer| ensures Follows(byId, longer, i) {
      if i < |path| {
        assert Follows(byId, path, i);
      }
    }
    assert PathTo(byId, longer, from, to);
  }

  lemma {:induction false} ClosedUnderPaths(byId: Index, seen: set<string>, path: seq<string>)
    requires IsPath(byId, path) && path[0] in seen
    requires forall id, child :: id in seen && id in byId && child in byId[id].children && child in byId
               ==> child in seen
    ensures path[|path| - 1] in seen
  {
    if |path| > 1 {
      var front := path[..|path| - 1];
      forall i | 0 < i < |front| ensures Follows(byId, front, i) {
        assert Follows(byId, path, i);
      }
      ClosedUnderPaths(byId, seen, front);
      assert Follows(byId, path, |path| - 1);
    }
  }

  lemma {:induction false} AddedAreReachable(byId: Index, id: string, added: seq<Node>, k: nat)
    requires IndexedById(byId) && k < |added| && id in byId
    requires forall node :: node in added ==> node.id in byId && byId[node.id] == node
    requires AfterParents([id], added)
    ensures Reachable(byId, id, added[k].id)
    decreases k
  {
    if added[k].id == id {
      assert PathTo(byId, [id], id, id);
    } else {
      var j :| 0 <= j < k && added[k].id in added[j].children;
      AddedAreReachable(byId, id, added, j);
      ReachableStep(byId, id, added[j].id, added[k].id);
    }
  }

  /** From an empty start the walk sees the ids reachable from the root and no others. */
  lemma WalkSeesReachable(byId: Index, root: string)
    requires IndexedById(byId)
    ensures forall id :: id in Visit(byId, Walk({}, []), root).seen <==> Reachable(byId, root, id)
  {
    var walk := Visit(byId, Walk({}, []), root);
    var added := VisitAdds(byId, Walk({}, []), root, walk);
    forall id ensures id in walk.seen <==> Reachable(byId, root, id) {
      if id in walk.seen {
        var node :| node in added && node.id == id;
        var k :| 0 <= k < |added| && added[k] == node;
        assert added[0].id == root;
        AddedAreReachable(byId, root, added, k);
      }
      if Reachable(byId, root, id) {
        var path :| PathTo(byId, path, root, id);
        forall x, child | x in walk.seen && x in byId && child in byId[x].children && child in byId
          ensures child in walk.seen
        {
          var node :| node in added && node.id == x;
          assert node == byId[x];
        }
        ClosedUnderPaths(byId, walk.seen, path);
      }
    }
  }

  ghost predicate Reached(graph: Graph, id: string) {
    Reachable(ById(graph.nodes), graph.root, id)
  }

  /** What the walk leaves out is what the root does not reach. */
  lemma OrderUnfolds(graph: Graph)
    ensures Order(graph) == Visit(ById(graph.nodes), Walk({}, []), graph.root).ordered
              + Filter(graph.nodes, (node: Node) => !Reached(graph, node.id))
  {
    var walk := Visit(ById(graph.nodes), Walk({}, []), graph.root);
    WalkSeesReachable(ById(graph.nodes), graph.root);
    forall node: Node ensures (node.id !in walk.seen) == !Reached(graph, node.id) {
    }
    FiltersAgree(graph.nodes, (node: Node) => node.id !in walk.seen, (node: Node) => !Reached(graph, node.id));
  }

  /** `reached` lists, once each and as the index has them, the nodes the root reaches. */
  ghost predicate ListsReached(byId: Index, root: string, reached: seq<Node>) {
    && Distinct(reached)
    && (forall node :: node in reached ==> node.id in byId && node == byId[node.id] && Reachable(byId, root, node.id))
    && forall id :: Reachable(byId, root, id) ==> id in byId && byId[id] in reached
  }

  lemma WalkListsReached(byId: Index, root: string) returns (reached: seq<Node>)
    requires IndexedById(byId)
    ensures reached == Visit(byId, Walk({}, []), root).ordered
    ensures ListsReached(byId, root, reached)
    ensures root in byId ==> reached != [] && reached[0].id == root
    ensures forall k :: 0 < k < |reached| ==> HasParentBefore(reached, k)
  {
    reached := VisitAdds(byId, Walk({}, []), root, Visit(byId, Walk({}, []), root));
    WalkSeesReachable(byId, root);
    forall node | node in reached ensures Reachable(byId, root, node.id) {
      assert node.id in Ids(reached);
    }
    forall k | 0 < k < |reached| ensures HasParentBefore(reached, k) {
      assert reached[k].id != reached[0].id by {
        assert reached[k] in reached && reached[0] in reached;
      }
    }
  }

  /** The ordering: the nodes the root reaches, one for each id (the last with that id), the
      root first and every other one after some parent of it; then the nodes whose id is
      not reachable, in registry order. */
  lemma OrderIsReachableThenRest(graph: Graph) returns (reached: seq<Node>)
    ensures Order(graph) == reached + Filter(graph.nodes, (node: Node) => !Reached(graph, node.id))
    ensures ListsReached(ById(graph.nodes), graph.root, reached)
    ensures if graph.root in ById(graph.nodes) then reached != [] && reached[0].id == graph.root else reached == []
    ensures forall k :: 0 < k < |reached| ==> HasParentBefore(reached, k)
  {
    OrderUnfolds(graph);
    reached := WalkListsReached(ById(graph.nodes), graph.root);
  }

  lemma {:induction false} FilterSplits<T(!new)>(s: seq<T>, p: T -> bool, q: T -> bool)
    requires forall x :: p(x) == !q(x)
    ensures multiset(s) == multiset(Filter(s, p)) + multiset(Filter(s, q))
  {
    if s != [] {
      assert s == [s[0]] + s[1..];
      FilterSplits(s[1..], p, q);
    }
  }

  /** No two registry nodes share a reachable id. */
  ghost predicate ReachableIdsUnique(graph: Graph) {
    forall i, j :: 0 <= i < j < |graph.nodes| && graph.nodes[i].id == graph.nodes[j].id
      ==> !Reached(graph, graph.nodes[i].id)
  }

  /** The ordering is a permutation of the registry nodes exactly when no reachable id is
      carried by two of them: a reachable duplicate is dropped, an unreachable one is kept. */
  lemma OrderIsPermutationIff(graph: Graph)
    ensures multiset(Order(graph)) == multiset(graph.nodes) <==> ReachableIdsUnique(graph)
  {
    var reached := OrderIsReachableThenRest(graph);
    var inside := Filter(graph.nodes, (node: Node) => Reached(graph, node.id));
    var rest := Filter(graph.nodes, (node: Node) => !Reached(graph, node.id));
    FilterSplits(graph.nodes, (node: Node) => Reached(graph, node.id), (node: Node) => !Reached(graph, node.id));
    SumsAgreeIff(multiset(reached), multiset(inside), multiset(rest));
    assert multiset(Order(graph)) == multiset(reached) + multiset(rest);
    UniqueIffDistinctInside(graph, inside);
    if multiset(reached) == multiset(inside) {
      DistinctCounts(reached);
      DistinctCounts(inside);
      SameIdSameNode(reached, inside, ById(graph.nodes));
    }
    if DistinctIds(inside) {
      SameElements(graph, reached, inside);
    }
  }

  lemma SumsAgreeIff<T>(a: multiset<T>, b: multiset<T>, c: multiset<T>)
    ensures a + c == b + c <==> a == b
  {
    assert a == (a + c) - c && b == (b + c) - c;
  }

  ghost predicate DistinctIds(nodes: seq<Node>) {
    forall i, j :: 0 <= i < j < |nodes| ==> nodes[i].id != nodes[j].id
  }

  lemma SameIdSameNode(reached: seq<Node>, inside: seq<Node>, byId: Index)
    requires multiset(reached) == multiset(inside) && Distinct(inside)
    requires forall node :: node in reached ==> node.id in byId && node == byId[node.id]
    ensures DistinctIds(inside)
  {
    forall i, j | 0 <= i < j < |inside| ensures inside[i].id != inside[j].id {
      assert inside[i] in multiset(reached) && inside[j] in multiset(reached);
    }
  }

  lemma SameElements(graph: Graph, reached: seq<Node>, inside: seq<Node>)
    requires inside == Filter(graph.nodes, (node: Node) => Reached(graph, node.id)) && DistinctIds(inside)
    requires ListsReached(ById(graph.nodes), graph.root, reached)
    ensures multiset(reached) == multiset(inside)
  {
    assert Distinct(inside);
    DistinctCounts(reached);
    DistinctCounts(inside);
    forall node ensures node in reached <==> node in inside {
      if node in inside {
        assert Reached(graph, node.id);
        var indexed := ById(graph.nodes)[node.id];
        assert indexed in reached && indexed in inside;
        var i, j :| 0 <= i < |inside| && 0 <= j < |inside| && inside[i] == node && inside[j] == indexed;
      }
    }
    forall node ensures multiset(reached)[node] == multiset(inside)[node] {
      assert node in multiset(reached) <==> node in reached;
      assert node in multiset(inside) <==> node in inside;
    }
  }

  lemma {:induction false} UniqueIffDistinctInside(graph: Graph, inside: seq<Node>)
    requires inside == Filter(graph.nodes, (node: Node) => Reached(graph, node.id))
    ensures ReachableIdsUnique(graph) <==> DistinctIds(inside)
  {
    FilterDistinctIff(graph.nodes, (id: string) => Reached(graph, id));
    FiltersAgree(graph.nodes, (node: Node) => Reached(graph, node.id), Within((id: string) => Reached(graph, id)));
  }

  ghost predicate UniqueWithin(nodes: seq<Node>, within: string -> bool) {
    forall i, j :: 0 <= i < j < |nodes| && nodes[i].id == nodes[j].id ==> !within(nodes[i].id)
  }

  function Within(within: string -> bool): Node -> bool {
    (node: Node) => within(node.id)
  }

  /** Distinct ids inside, from positions of the kept nodes. */
  lemma FilterDistinctIff(nodes: seq<Node>, within: string -> bool)
    ensures UniqueWithin(nodes, within) <==> DistinctIds(Filter(nodes, Within(within)))
  {
    if UniqueWithin(nodes, within) {
      UniqueGivesDistinct(nodes, within);
    }
    if DistinctIds(Filter(nodes, Within(within))) {
      DistinctGivesUnique(nodes, within);
    }
  }

  lemma UniqueGivesDistinct(nodes: seq<Node>, within: string -> bool)
    requires UniqueWithin(nodes, within)
    ensures DistinctIds(Filter(nodes, Within(within)))
  {
    var kept, at := Filter(nodes, Within(within)), Positions(nodes, Within(within), 0);
    forall i, j | 0 <= i < j < |kept| ensures kept[i].id != kept[j].id {
      KeptAtPosition(nodes, Within(within), i);
      KeptAtPosition(nodes, Within(within), j);
      assert at[i] < at[j] && within(nodes[at[i]].id);
    }
  }

  lemma DistinctGivesUnique(nodes: seq<Node>, within: string -> bool)
    requires DistinctIds(Filter(nodes, Within(within)))
    ensures UniqueWithin(nodes, within)
  {
    forall i, j | 0 <= i < j < |nodes| && nodes[i].id == nodes[j].id ensures !within(nodes[i].id) {
      if within(nodes[i].id) {
        SameIdKeptTwice(nodes, within, i, j);
      }
    }
  }

  lemma SameIdKeptTwice(nodes: seq<Node>, within: string -> bool, i: nat, j: nat)
    requires i < j < |nodes| && nodes[i].id == nodes[j].id && within(nodes[i].id)
    ensures !DistinctIds(Filter(nodes, Within(within)))
  {
    var b := PositionOf(nodes, Within(within), i);
    var c := PositionOf(nodes, Within(within), j);
    KeptAtPosition(nodes, Within(within), b);
    KeptAtPosition(nodes, Within(within), c);
    var kept := Filter(nodes, Within(within));
    assert b != c && kept[b].id == kept[c].id;
  }

  // ---------------------------------------------------------------- an independent order

  /** Depth-first search with an explicit stack in place of the recursion: take the top
      id; skip it if unknown or visited, otherwise emit its node and push its children. */
  function StackOrder(byId: Index, seen: set<string>, stack: seq<string>): seq<Node>
    decreases Unseen(byId, seen), |stack|
  {
    if stack == [] then []
    else if stack[0] in seen || stack[0] !in byId then StackOrder(byId, seen, stack[1..])
    else
      UnseenDrops(byId, seen, stack[0]);
      [byId[stack[0]]] + StackOrder(byId, seen + {stack[0]}, byId[stack[0]].children + stack[1..])
  }

  /** What has been emitted once the stack machine is done with `stack`. */
  function Emitted(byId: Index, walk: Walk, stack: seq<string>): seq<Node> {
    walk.ordered + StackOrder(byId, walk.seen, stack)
  }

  lemma FirstOfStack(ids: seq<string>, below: seq<string>)
    requires ids != []
    ensures ids + below == [ids[0]] + (ids[1..] + below)
  {
  }

  /** A recursive walk over `ids` emits what the stack machine emits until only `below`
      is left on its stack. */
  lemma {:induction false} VisitAllIsStackOrder(byId: Index, walk: Walk, ids: seq<string>, below: seq<string>,
                                                after: Walk)
    requires after == VisitAll(byId, walk, ids)
    ensures Emitted(byId, walk, ids + below) == Emitted(byId, after, below)
    decreases Unseen(byId, walk.seen), |ids|
  {
    if ids == [] {
      assert ids + below == below;
    } else {
      var next := Visit(byId, walk, ids[0]);
      UnseenShrinks(byId, walk.seen, next.seen);
      VisitAllUnfolds(byId, walk, ids);
      VisitIsStackOrder(byId, walk, ids[0], ids[1..] + below, next);
      VisitAllIsStackOrder(byId, next, ids[1..], below, after);
      FirstOfStack(ids, below);
    }
  }

  lemma {:induction false} VisitIsStackOrder(byId: Index, walk: Walk, id: string, below: seq<string>, after: Walk)
    requires after == Visit(byId, walk, id)
    ensures Emitted(byId, walk, [id] + below) == Emitted(byId, after, below)
    decreases Unseen(byId, walk.seen), 0
  {
    assert ([id] + below)[1..] == below;
    if id !in walk.seen && id in byId {
      var node := byId[id];
      var entered := Walk(walk.seen + {id}, walk.ordered + [node]);
      UnseenDrops(byId, walk.seen, id);
      VisitAllIsStackOrder(byId, entered, node.children, below, after);
      assert walk.ordered + ([node] + StackOrder(byId, entered.seen, node.children + below))
          == entered.ordered + StackOrder(byId, entered.seen, node.children + below);
    }
  }

  /** The reachable part of the ordering is the pre-order of stack-based depth-first search. */
  lemma OrderIsStackOrder(graph: Graph)
    ensures Order(graph) == StackOrder(ById(graph.nodes), {}, [graph.root])
              + Filter(graph.nodes, (node: Node) => !Reached(graph, node.id))
  {
    var byId := ById(graph.nodes);
    var start := Walk({}, []);
    var walk := Visit(byId, start, graph.root);
    VisitIsStackOrder(byId, start, graph.root, [], walk);
    assert [graph.root] + [] == [graph.root];
    assert walk.ordered + [] == walk.ordered;
    assert [] + StackOrder(byId, {}, [graph.root]) == StackOrder(byId, {}, [graph.root]);
    OrderUnfolds(graph);
  }
}

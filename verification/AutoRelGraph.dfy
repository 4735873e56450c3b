/** The adjacency graph and the bounded breadth-first walk of relations_auto_graph.go. */
module AutoRelGraphs {
  import opened AutoRelations
  import opened Options

  datatype Direction = In | Out | Both

  datatype Node = Node(kind: Kind, id: string)

  /** A visited node; parent and via never change once the node has been queued. */
  datatype BfsNode = BfsNode(kind: Kind, id: string, depth: int,
                             via: Option<AutoRelation>, parent: Option<BfsNode>)

  function NodeOf(b: BfsNode): Node {
    Node(b.kind, b.id)
  }

  function Key(n: Node): string {
    NodeKey(n.kind, n.id)
  }

  // ---- walks in the relation set: what the traversal is measured against ----

  predicate Follows(dir: Direction, n: Node, m: Node, r: AutoRelation) {
    || (dir != In && n == Node(User, r.userId) && m == Node(Doc, r.docId))
    || (dir != Out && n == Node(Doc, r.docId) && m == Node(User, r.userId))
  }

  ghost predicate Linked(rels: seq<AutoRelation>, dir: Direction, n: Node, m: Node) {
    exists r :: r in rels && Follows(dir, n, m, r)
  }

  ghost predicate Hop(rels: seq<AutoRelation>, dir: Direction, p: seq<Node>, i: int)
    requires 1 <= i < |p|
  {
    Linked(rels, dir, p[i - 1], p[i])
  }

  ghost predicate IsWalk(rels: seq<AutoRelation>, dir: Direction, p: seq<Node>) {
    |p| >= 1 && forall i :: 1 <= i < |p| ==> Hop(rels, dir, p, i)
  }

  lemma WalkInit(rels: seq<AutoRelation>, dir: Direction, p: seq<Node>)
    requires IsWalk(rels, dir, p) && |p| > 1
    ensures IsWalk(rels, dir, p[..|p| - 1]) && Linked(rels, dir, p[|p| - 2], p[|p| - 1])
  {
    var q := p[..|p| - 1];
    assert Hop(rels, dir, p, |p| - 1);
    forall i | 1 <= i < |q| ensures Hop(rels, dir, q, i) {
      assert Hop(rels, dir, p, i);
    }
  }

  lemma WalkSnoc(rels: seq<AutoRelation>, dir: Direction, q: seq<Node>, m: Node)
    requires IsWalk(rels, dir, q) && Linked(rels, dir, q[|q| - 1], m)
    ensures IsWalk(rels, dir, q + [m])
  {
    var p := q + [m];
    forall i | 1 <= i < |p| ensures Hop(rels, dir, p, i) {
      if i < |q| { assert Hop(rels, dir, q, i); }
    }
  }

  /** A walk of exactly hops links from n to m. */
  ghost predicate Leads(rels: seq<AutoRelation>, dir: Direction, p: seq<Node>, n: Node, m: Node, hops: int) {
    IsWalk(rels, dir, p) && p[0] == n && p[|p| - 1] == m && |p| == hops + 1
  }

  ghost predicate Within(rels: seq<AutoRelation>, dir: Direction, n: Node, m: Node, hops: int) {
    exists p, k :: k <= hops && Leads(rels, dir, p, n, m, k)
  }

  ghost predicate ShortestDistance(rels: seq<AutoRelation>, dir: Direction, n: Node, m: Node, d: int) {
    && (exists p :: Leads(rels, dir, p, n, m, d))
    && (forall p, k :: Leads(rels, dir, p, n, m, k) ==> d <= k)
  }

  /** Following one direction only, no walk is longer than one hop; following both, kinds alternate. */
  lemma {:induction false} WalkShape(rels: seq<AutoRelation>, dir: Direction, p: seq<Node>)
    requires IsWalk(rels, dir, p)
    ensures dir != Both ==> |p| <= 2
    ensures p[|p| - 1].kind == p[0].kind <==> |p| % 2 == 1
  {
    if |p| > 1 {
      var q := p[..|p| - 1];
      WalkInit(rels, dir, p);
      WalkShape(rels, dir, q);
      if |q| > 1 {
        WalkInit(rels, dir, q);
      }
    }
  }

  // ---- the graph ----

  datatype Graph = Graph(rels: seq<AutoRelation>,
                         userAdj: map<string, seq<AutoRelation>>, docAdj: map<string, seq<AutoRelation>>)

  function Adjacent(adj: map<string, seq<AutoRelation>>, id: string): seq<AutoRelation> {
    if id in adj then adj[id] else []
  }

  /** The adjacency lists hold, per endpoint, exactly its relations in input order. */
  ghost predicate Indexes(g: Graph) {
    ListsUsers(g.userAdj, g.rels) && ListsDocs(g.docAdj, g.rels)
  }

  ghost predicate ListsUsers(adj: map<string, seq<AutoRelation>>, rels: seq<AutoRelation>) {
    forall id :: Adjacent(adj, id) == OfUser(rels, id)
  }

  ghost predicate ListsDocs(adj: map<string, seq<AutoRelation>>, rels: seq<AutoRelation>) {
    forall id :: Adjacent(adj, id) == OfDoc(rels, id)
  }

  function OfUser(rels: seq<AutoRelation>, id: string): seq<AutoRelation> {
    if rels == [] then []
    else OfUser(rels[..|rels| - 1], id) + if rels[|rels| - 1].userId == id then [rels[|rels| - 1]] else []
  }

  function OfDoc(rels: seq<AutoRelation>, id: string): seq<AutoRelation> {
    if rels == [] then []
    else OfDoc(rels[..|rels| - 1], id) + if rels[|rels| - 1].docId == id then [rels[|rels| - 1]] else []
  }

  lemma {:induction false} EndpointLists(rels: seq<AutoRelation>, id: string, r: AutoRelation)
    ensures r in OfUser(rels, id) <==> r in rels && r.userId == id
    ensures r in OfDoc(rels, id) <==> r in rels && r.docId == id
  {
    if rels != [] {
      EndpointLists(rels[..|rels| - 1], id, r);
      assert rels == rels[..|rels| - 1] + [rels[|rels| - 1]];
    }
  }

  function Append(adj: map<string, seq<AutoRelation>>, id: string, r: AutoRelation): map<string, seq<AutoRelation>> {
    adj[id := Adjacent(adj, id) + [r]]
  }

  lemma ListsNext(userAdj: map<string, seq<AutoRelation>>, docAdj: map<string, seq<AutoRelation>>,
                  rels: seq<AutoRelation>, i: nat)
    requires i < |rels| && ListsUsers(userAdj, rels[..i]) && ListsDocs(docAdj, rels[..i])
    ensures ListsUsers(Append(userAdj, rels[i].userId, rels[i]), rels[..i + 1])
    ensures ListsDocs(Append(docAdj, rels[i].docId, rels[i]), rels[..i + 1])
  {
    var r, init, next := rels[i], rels[..i], rels[..i + 1];
    assert next[..i] == init;
    forall id ensures Adjacent(Append(userAdj, r.userId, r), id) == OfUser(next, id) {
      assert Adjacent(userAdj, id) == OfUser(init, id);
    }
    forall id ensures Adjacent(Append(docAdj, r.docId, r), id) == OfDoc(next, id) {
      assert Adjacent(docAdj, id) == OfDoc(init, id);
    }
  }

  method BuildGraph(rels: seq<AutoRelation>) returns (g: Graph)
    ensures g.rels == rels && Indexes(g)
  {
    var userAdj: map<string, seq<AutoRelation>>, docAdj: map<string, seq<AutoRelation>> := map[], map[];
    for i := 0 to |rels|
      invariant ListsUsers(userAdj, rels[..i]) && ListsDocs(docAdj, rels[..i])
    {
      ListsNext(userAdj, docAdj, rels, i);
      userAdj := Append(userAdj, rels[i].userId, rels[i]);
      docAdj := Append(docAdj, rels[i].docId, rels[i]);
    }
    assert rels[..|rels|] == rels;
    g := Graph(rels, userAdj, docAdj);
  }

  /** A neighbour before it is queued: its node and the relation that leads to it. */
  type Neighbor = (Node, AutoRelation)

  function Far(kind: Kind, r: AutoRelation): Neighbor {
    (if kind == User then Node(Doc, r.docId) else Node(User, r.userId), r)
  }

  method Hops(adj: seq<AutoRelation>, kind: Kind) returns (found: seq<Neighbor>)
    ensures forall nb :: nb in found <==> nb.1 in adj && nb == Far(kind, nb.1)
  {
    found := [];
    for i := 0 to |adj|
      invariant forall nb :: nb in found <==> nb.1 in adj[..i] && nb == Far(kind, nb.1)
    {
      assert adj[..i + 1] == adj[..i] + [adj[i]];
      found := found + [Far(kind, adj[i])];
    }
    assert adj[..|adj|] == adj;
  }

  /** The source spells the two loops out; the directions allow one of them at most. */
  method Neighbors(g: Graph, kind: Kind, id: string, dir: Direction) returns (found: seq<Neighbor>)
    requires Indexes(g)
    ensures forall nb :: nb in found <==> nb.1 in g.rels && Follows(dir, Node(kind, id), nb.0, nb.1)
    // OUT leads from a user to the documents it read, IN from a document to its readers, BOTH either way
    ensures forall nb :: nb in found ==> nb.1 in g.rels && nb.0 == if kind == User then Node(Doc, nb.1.docId) else Node(User, nb.1.userId)
    ensures forall r :: r in g.rels && kind == User && dir in {Out, Both} && r.userId == id ==> (Node(Doc, r.docId), r) in found
    ensures forall r :: r in g.rels && kind == Doc && dir in {In, Both} && r.docId == id ==> (Node(User, r.userId), r) in found
    ensures (kind == User && dir == In) || (kind == Doc && dir == Out) ==> found == []
  {
    found := [];
    if kind == User && dir != In {
      found := Hops(Adjacent(g.userAdj, id), User);
    }
    if kind == Doc && dir != Out {
      found := Hops(Adjacent(g.docAdj, id), Doc);
    }
    forall nb: Neighbor ensures nb in found <==> nb.1 in g.rels && Follows(dir, Node(kind, id), nb.0, nb.1) {
      EndpointLists(g.rels, id, nb.1);
    }
  }

  // ---- the walk ----

  /** all is the visit order followed by the queue; the first done of them have been expanded. */
  ghost predicate Distinct(all: seq<BfsNode>) {
    forall i, j :: 0 <= i < j < |all| ==> NodeOf(all[i]) != NodeOf(all[j])
  }

  ghost predicate Layered(all: seq<BfsNode>) {
    forall i, j :: 0 <= i < j < |all| ==> all[i].depth <= all[j].depth
  }

  ghost predicate Covered(all: seq<BfsNode>, m: Node, d: int) {
    exists j :: 0 <= j < |all| && NodeOf(all[j]) == m && all[j].depth <= d
  }

  ghost predicate Expanded(rels: seq<AutoRelation>, dir: Direction, all: seq<BfsNode>, b: BfsNode) {
    forall m :: Linked(rels, dir, NodeOf(b), m) ==> Covered(all, m, b.depth + 1)
  }

  /** The i-th node hangs one level below an earlier one, by a relation that joins the two. */
  ghost predicate Hangs(rels: seq<AutoRelation>, dir: Direction, all: seq<BfsNode>, i: nat)
    requires i < |all|
  {
    var b := all[i];
    if i == 0 then b.depth == 0 && b.parent == None && b.via == None
    else
      && b.parent.Some? && b.via.Some? && b.parent.value in all[..i]
      && b.depth == b.parent.value.depth + 1
      && b.via.value in rels && Follows(dir, NodeOf(b.parent.value), NodeOf(b), b.via.value)
  }

  ghost predicate Tree(rels: seq<AutoRelation>, dir: Direction, all: seq<BfsNode>) {
    forall i :: 0 <= i < |all| ==> Hangs(rels, dir, all, i)
  }

  function Universe(rels: seq<AutoRelation>, root: Node): set<Node> {
    {root} + (set r <- rels :: Node(Doc, r.docId)) + (set r <- rels :: Node(User, r.userId))
  }

  lemma {:induction false} DistinctFits(all: seq<BfsNode>, s: set<Node>)
    requires Distinct(all) && forall b :: b in all ==> NodeOf(b) in s
    ensures |all| <= |s|
  {
    if all != [] {
      var last := all[|all| - 1];
      DistinctFits(all[..|all| - 1], s - {NodeOf(last)});
    }
  }

  /** What the walk returns, for every start, direction and depth bound. */
  ghost predicate IsBfsOf(rels: seq<AutoRelation>, dir: Direction, root: Node, maxDepth: int, order: seq<BfsNode>) {
    var bound := if maxDepth < 0 then 0 else maxDepth;
    && |order| >= 1 && NodeOf(order[0]) == root
    && Distinct(order) && Layered(order) && Tree(rels, dir, order)
    && (forall m :: (exists i :: 0 <= i < |order| && NodeOf(order[i]) == m) <==> Within(rels, dir, root, m, bound))
    && (forall i :: 0 <= i < |order| ==> ShortestDistance(rels, dir, root, NodeOf(order[i]), order[i].depth))
  }

  /** The parent chain of a node is a walk from the root, as long as the node is deep. */
  lemma {:induction false} ChainIsWalk(rels: seq<AutoRelation>, dir: Direction, all: seq<BfsNode>, i: nat) returns (p: seq<Node>)
    requires i < |all| && Tree(rels, dir, all)
    ensures Leads(rels, dir, p, NodeOf(all[0]), NodeOf(all[i]), all[i].depth)
    decreases i
  {
    assert Hangs(rels, dir, all, i);
    if i == 0 {
      p := [NodeOf(all[0])];
    } else {
      var j :| 0 <= j < i && all[..i][j] == all[i].parent.value;
      var q := ChainIsWalk(rels, dir, all, j);
      WalkSnoc(rels, dir, q, NodeOf(all[i]));
      p := q + [NodeOf(all[i])];
    }
  }

  /** Once everything above the bound is expanded, a walk within the bound ends in a covered node. */
  lemma {:induction false} WalkIsCovered(rels: seq<AutoRelation>, dir: Direction, all: seq<BfsNode>, maxDepth: int,
                                         p: seq<Node>)
    requires |all| >= 1 && Tree(rels, dir, all)
    requires forall i :: 0 <= i < |all| && all[i].depth < maxDepth ==> Expanded(rels, dir, all, all[i])
    requires IsWalk(rels, dir, p) && p[0] == NodeOf(all[0]) && (|p| == 1 || |p| - 1 <= maxDepth)
    ensures Covered(all, p[|p| - 1], |p| - 1)
    decreases |p|
  {
    if |p| == 1 {
      assert Hangs(rels, dir, all, 0);
    } else {
      var q := p[..|p| - 1];
      WalkInit(rels, dir, p);
      WalkIsCovered(rels, dir, all, maxDepth, q);
      var j :| 0 <= j < |all| && NodeOf(all[j]) == q[|q| - 1] && all[j].depth <= |q| - 1;
      assert Expanded(rels, dir, all, all[j]);
    }
  }

  /** A finished walk has found exactly the nodes in range, each at its shortest distance. */
  lemma FinishedWalk(rels: seq<AutoRelation>, dir: Direction, root: Node, maxDepth: int, all: seq<BfsNode>)
    requires |all| >= 1 && NodeOf(all[0]) == root && Distinct(all) && Layered(all) && Tree(rels, dir, all)
    requires forall i :: 0 <= i < |all| ==> all[i].depth <= if maxDepth < 0 then 0 else maxDepth
    requires forall i :: 0 <= i < |all| && all[i].depth < maxDepth ==> Expanded(rels, dir, all, all[i])
    ensures IsBfsOf(rels, dir, root, maxDepth, all)
  {
    var bound := if maxDepth < 0 then 0 else maxDepth;
    forall m ensures (exists i :: 0 <= i < |all| && NodeOf(all[i]) == m) <==> Within(rels, dir, root, m, bound) {
      if i :| 0 <= i < |all| && NodeOf(all[i]) == m {
        var p := ChainIsWalk(rels, dir, all, i);
      }
      if Within(rels, dir, root, m, bound) {
        var p, k :| k <= bound && Leads(rels, dir, p, root, m, k);
        WalkIsCovered(rels, dir, all, maxDepth, p);
      }
    }
    forall i | 0 <= i < |all| ensures ShortestDistance(rels, dir, root, NodeOf(all[i]), all[i].depth) {
      var p := ChainIsWalk(rels, dir, all, i);
      forall q, k | Leads(rels, dir, q, root, NodeOf(all[i]), k) ensures all[i].depth <= k {
        if k <= bound {
          WalkIsCovered(rels, dir, all, maxDepth, q);
        }
      }
    }
  }

  ghost predicate KeysOf(all: seq<BfsNode>, visited: set<string>) {
    forall n :: Key(n) in visited <==> exists i :: 0 <= i < |all| && NodeOf(all[i]) == n
  }

  lemma KeysGrow(all: seq<BfsNode>, visited: set<string>, b: BfsNode)
    requires KeysOf(all, visited)
    ensures KeysOf(all + [b], visited + {Key(NodeOf(b))})
  {
    var all' := all + [b];
    forall n ensures Key(n) in visited + {Key(NodeOf(b))} <==> exists i :: 0 <= i < |all'| && NodeOf(all'[i]) == n {
      if Key(n) == Key(NodeOf(b)) {
        NodeKeyInjective(n.kind, n.id, b.kind, b.id);
        assert NodeOf(all'[|all|]) == n;
      }
      if i :| 0 <= i < |all| && NodeOf(all[i]) == n {
        assert NodeOf(all'[i]) == n;
      }
    }
  }

  /** Everything the loop keeps about the nodes queued so far. */
  ghost predicate Growing(rels: seq<AutoRelation>, dir: Direction, root: Node, maxDepth: int,
                          all: seq<BfsNode>, visited: set<string>) {
    && |all| >= 1 && NodeOf(all[0]) == root
    && Distinct(all) && Layered(all) && Tree(rels, dir, all) && KeysOf(all, visited)
    && (forall i :: 0 <= i < |all| ==> all[i].depth <= if maxDepth < 0 then 0 else maxDepth)
    && (forall b :: b in all ==> NodeOf(b) in Universe(rels, root))
  }

  lemma GrowsBy(rels: seq<AutoRelation>, dir: Direction, root: Node, maxDepth: int,
                all: seq<BfsNode>, visited: set<string>, b: BfsNode)
    requires Growing(rels, dir, root, maxDepth, all, visited)
    requires Key(NodeOf(b)) !in visited
    requires b.parent.Some? && b.via.Some? && b.parent.value in all && b.depth == b.parent.value.depth + 1
    requires b.via.value in rels && Follows(dir, NodeOf(b.parent.value), NodeOf(b), b.via.value)
    requires b.depth <= maxDepth && forall c :: c in all ==> c.depth <= b.depth
    ensures Growing(rels, dir, root, maxDepth, all + [b], visited + {Key(NodeOf(b))})
  {
    var all' := all + [b];
    KeysGrow(all, visited, b);
    forall i | 0 <= i < |all'| ensures Hangs(rels, dir, all', i) {
      if i < |all| {
        assert Hangs(rels, dir, all, i) && all'[..i] == all[..i];
      } else {
        assert all'[..i] == all;
      }
    }
    forall i | 0 <= i < |all| ensures NodeOf(all[i]) != NodeOf(b) {}
  }

  lemma CoveredGrows(all: seq<BfsNode>, b: BfsNode)
    ensures forall m, d :: Covered(all, m, d) ==> Covered(all + [b], m, d)
    ensures Covered(all + [b], NodeOf(b), b.depth)
  {
    var all' := all + [b];
    assert all'[|all|] == b;
    forall m, d | Covered(all, m, d) ensures Covered(all', m, d) {
      var j :| 0 <= j < |all| && NodeOf(all[j]) == m && all[j].depth <= d;
      assert all'[j] == all[j];
    }
  }

  lemma CoveredByVisited(all: seq<BfsNode>, visited: set<string>, n: Node, d: int)
    requires KeysOf(all, visited) && Key(n) in visited
    requires forall b :: b in all ==> b.depth <= d
    ensures Covered(all, n, d)
  {
    var i :| 0 <= i < |all| && NodeOf(all[i]) == n;
    assert all[i] in all;
  }

  ghost predicate AllCovered(all: seq<BfsNode>, found: seq<Neighbor>, done: nat, d: int)
    requires done <= |found|
  {
    forall j :: 0 <= j < done ==> Covered(all, found[j].0, d)
  }

  lemma StartsGrowing(rels: seq<AutoRelation>, dir: Direction, maxDepth: int, root: BfsNode)
    requires root == BfsNode(root.kind, root.id, 0, None, None)
    ensures Growing(rels, dir, NodeOf(root), maxDepth, [root], {Key(NodeOf(root))})
  {
    KeysGrow([], {}, root);
    assert [] + [root] == [root] && {} + {Key(NodeOf(root))} == {Key(NodeOf(root))};
  }

  ghost predicate AllExpanded(rels: seq<AutoRelation>, dir: Direction, maxDepth: int, all: seq<BfsNode>, done: nat)
    requires done <= |all|
  {
    forall i :: 0 <= i < done && all[i].depth < maxDepth ==> Expanded(rels, dir, all, all[i])
  }

  lemma AllGrow(rels: seq<AutoRelation>, dir: Direction, maxDepth: int, all: seq<BfsNode>, done: nat,
                found: seq<Neighbor>, t: nat, b: BfsNode)
    requires done <= |all| && AllExpanded(rels, dir, maxDepth, all, done)
    requires t < |found| && found[t].0 == NodeOf(b) && AllCovered(all, found, t, b.depth)
    ensures AllExpanded(rels, dir, maxDepth, all + [b], done)
    ensures AllCovered(all + [b], found, t + 1, b.depth)
  {
    CoveredGrows(all, b);
  }

  /** The inner loop of the walk: appends the neighbours of n not seen before. */
  method QueueUnseen(found: seq<Neighbor>, n: BfsNode, visited0: set<string>, ghost rels: seq<AutoRelation>, dir: Direction,
                     ghost start: Node, maxDepth: int, ghost all: seq<BfsNode>, ghost done: nat)
    returns (added: seq<BfsNode>, visited: set<string>)
    requires Growing(rels, dir, start, maxDepth, all, visited0) && n in all && n.depth < maxDepth
    requires forall b :: b in all ==> b.depth <= n.depth + 1
    requires forall nb :: nb in found ==> nb.1 in rels && Follows(dir, NodeOf(n), nb.0, nb.1)
    requires done <= |all| && AllExpanded(rels, dir, maxDepth, all, done)
    ensures Growing(rels, dir, start, maxDepth, all + added, visited)
    ensures forall b :: b in all + added ==> b.depth <= n.depth + 1
    ensures AllExpanded(rels, dir, maxDepth, all + added, done)
    ensures AllCovered(all + added, found, |found|, n.depth + 1)
  {
    added, visited := [], visited0;
    assert all + added == all;
    for t := 0 to |found|
      invariant Growing(rels, dir, start, maxDepth, all + added, visited)
      invariant forall b :: b in all + added ==> b.depth <= n.depth + 1
      invariant AllExpanded(rels, dir, maxDepth, all + added, done)
      invariant AllCovered(all + added, found, t, n.depth + 1)
    {
      var (node, via) := found[t];
      assert found[t] in found;
      if Key(node) in visited {
        CoveredByVisited(all + added, visited, node, n.depth + 1);
      } else {
        var nb := BfsNode(node.kind, node.id, n.depth + 1, Some(via), Some(n));
        GrowsBy(rels, dir, start, maxDepth, all + added, visited, nb);
        AllGrow(rels, dir, maxDepth, all + added, done, found, t, nb);
        assert all + (added + [nb]) == all + added + [nb];
        visited := visited + {Key(node)};
        added := added + [nb];
      }
    }
  }

  /** The loop invariant: all is the visit order, done long, followed by the queue. */
  ghost predicate Walking(rels: seq<AutoRelation>, dir: Direction, root: Node, maxDepth: int,
                          all: seq<BfsNode>, visited: set<string>, done: nat) {
    && done <= |all|
    && Growing(rels, dir, root, maxDepth, all, visited)
    && AllExpanded(rels, dir, maxDepth, all, done)
    && (done < |all| ==> forall b :: b in all ==> b.depth <= all[done].depth + 1)
  }

  lemma StartsWalking(rels: seq<AutoRelation>, dir: Direction, maxDepth: int, root: BfsNode)
    requires root == BfsNode(root.kind, root.id, 0, None, None)
    ensures Walking(rels, dir, NodeOf(root), maxDepth, [root], {Key(NodeOf(root))}, 0)
  {
    StartsGrowing(rels, dir, maxDepth, root);
  }

  lemma WalkingFits(rels: seq<AutoRelation>, dir: Direction, root: Node, maxDepth: int,
                    all: seq<BfsNode>, visited: set<string>, done: nat)
    requires Walking(rels, dir, root, maxDepth, all, visited, done)
    ensures |all| <= |Universe(rels, root)|
  {
    DistinctFits(all, Universe(rels, root));
  }

  /** The next node counts as done once it is at the depth bound or its neighbours are queued. */
  lemma NodeDone(rels: seq<AutoRelation>, dir: Direction, root: Node, maxDepth: int,
                 all: seq<BfsNode>, visited: set<string>, done: nat)
    requires done < |all| && Growing(rels, dir, root, maxDepth, all, visited)
    requires AllExpanded(rels, dir, maxDepth, all, done)
    requires forall b :: b in all ==> b.depth <= all[done].depth + 1
    requires all[done].depth < maxDepth ==> Expanded(rels, dir, all, all[done])
    ensures Walking(rels, dir, root, maxDepth, all, visited, done + 1)
  {
    if done + 1 < |all| {
      assert all[done].depth <= all[done + 1].depth;
    }
  }

  lemma NodeExpanded(rels: seq<AutoRelation>, dir: Direction, all: seq<BfsNode>, n: BfsNode, found: seq<Neighbor>)
    requires forall nb: Neighbor :: nb.1 in rels && Follows(dir, NodeOf(n), nb.0, nb.1) ==> nb in found
    requires AllCovered(all, found, |found|, n.depth + 1)
    ensures Expanded(rels, dir, all, n)
  {
    forall m | Linked(rels, dir, NodeOf(n), m) ensures Covered(all, m, n.depth + 1) {
      var r :| r in rels && Follows(dir, NodeOf(n), m, r);
      var nb: Neighbor := (m, r);
      assert nb in found;
    }
  }

  /** One node of the walk: queue its unseen neighbours unless it is at the depth bound. */
  method Visit(g: Graph, n: BfsNode, visited0: set<string>, dir: Direction, ghost start: Node, maxDepth: int,
               ghost all: seq<BfsNode>, ghost done: nat)
    returns (added: seq<BfsNode>, visited: set<string>)
    requires Indexes(g) && done < |all| && all[done] == n
    requires Walking(g.rels, dir, start, maxDepth, all, visited0, done)
    ensures Walking(g.rels, dir, start, maxDepth, all + added, visited, done + 1)
  {
    added, visited := [], visited0;
    assert all + added == all;
    if n.depth < maxDepth {
      var found := Neighbors(g, n.kind, n.id, dir);
      added, visited := QueueUnseen(found, n, visited0, g.rels, dir, start, maxDepth, all, done);
      NodeExpanded(g.rels, dir, all + added, n, found);
    }
    NodeDone(g.rels, dir, start, maxDepth, all + added, visited, done);
  }

  lemma MoveHead<T>(order: seq<T>, queue: seq<T>, added: seq<T>)
    requires queue != []
    ensures order + queue + added == (order + [queue[0]]) + (queue[1..] + added)
  {
  }

  method Bfs(g: Graph, startKind: Kind, startId: string, dir: Direction, maxDepth: int) returns (order: seq<BfsNode>)
    requires Indexes(g)
    ensures IsBfsOf(g.rels, dir, Node(startKind, startId), maxDepth, order)
    // one level down: from a user under OUT or BOTH the documents it read, from a document under IN or BOTH its readers
    ensures maxDepth >= 1 ==>
              (set b <- order | b.depth == 1 :: Node(b.kind, b.id)) ==
                if startKind == User then (if dir == In then {} else set r <- g.rels | r.userId == startId :: Node(Doc, r.docId))
                else if dir == Out then {} else set r <- g.rels | r.docId == startId :: Node(User, r.userId)
    ensures maxDepth <= 0 ==> |order| == 1
  {
    hide Walking, IsBfsOf, Universe, Indexes;
    var root := BfsNode(startKind, startId, 0, None, None);
    var visited := {NodeKey(startKind, startId)};
    var queue := [root];
    order := [];
    ghost var start := NodeOf(root);
    StartsWalking(g.rels, dir, maxDepth, root);
    assert order + queue == [root];
    while queue != []
      invariant Walking(g.rels, dir, start, maxDepth, order + queue, visited, |order|)
      decreases |Universe(g.rels, start)| - |order|
    {
      ghost var all := order + queue;
      WalkingFits(g.rels, dir, start, maxDepth, all, visited, |order|);
      var added, seen := Visit(g, queue[0], visited, dir, start, maxDepth, all, |order|);
      MoveHead(order, queue, added);
      order, queue, visited := order + [queue[0]], queue[1..] + added, seen;
    }
    assert order == order + queue;
    WalkEnds(g.rels, dir, start, maxDepth, order, visited);
    if maxDepth >= 1 { FirstLevel(g.rels, dir, start, maxDepth, order); }
    if maxDepth <= 0 { StartAlone(g.rels, dir, start, maxDepth, order); }
  }

  lemma WalkEnds(rels: seq<AutoRelation>, dir: Direction, root: Node, maxDepth: int, all: seq<BfsNode>, visited: set<string>)
    requires Walking(rels, dir, root, maxDepth, all, visited, |all|)
    ensures IsBfsOf(rels, dir, root, maxDepth, all)
  {
    hide Distinct, Layered, Tree, KeysOf, Universe, Expanded, IsBfsOf;
    FinishedWalk(rels, dir, root, maxDepth, all);
  }

  /** One level below the start stand its neighbours and nothing else. */
  lemma FirstLevel(rels: seq<AutoRelation>, dir: Direction, root: Node, maxDepth: int, order: seq<BfsNode>)
    requires IsBfsOf(rels, dir, root, maxDepth, order) && maxDepth >= 1
    ensures
      (set b <- order | b.depth == 1 :: Node(b.kind, b.id)) ==
        if root.kind == User then (if dir == In then {} else set r <- rels | r.userId == root.id :: Node(Doc, r.docId))
        else if dir == Out then {} else set r <- rels | r.docId == root.id :: Node(User, r.userId)
  {
    hide IsBfsOf, Linked;
    var found := set b <- order | b.depth == 1 :: Node(b.kind, b.id);
    forall n | n in found ensures Linked(rels, dir, root, n) {
      var i :| 0 <= i < |order| && order[i].depth == 1 && Node(order[i].kind, order[i].id) == n;
      DepthOneIsNext(rels, dir, root, maxDepth, order, i);
    }
    forall n | Linked(rels, dir, root, n) ensures n in found {
      var i := NextIsDepthOne(rels, dir, root, maxDepth, order, n);
      assert order[i] in order;
    }
    NextNodes(rels, dir, root);
  }

  lemma NextNodes(rels: seq<AutoRelation>, dir: Direction, root: Node)
    ensures
      var next := if root.kind == User then (if dir == In then {} else set r <- rels | r.userId == root.id :: Node(Doc, r.docId))
                  else if dir == Out then {} else set r <- rels | r.docId == root.id :: Node(User, r.userId);
      forall n :: n in next <==> Linked(rels, dir, root, n)
  {
  }

  lemma DepthOneIsNext(rels: seq<AutoRelation>, dir: Direction, root: Node, maxDepth: int, order: seq<BfsNode>, i: nat)
    requires IsBfsOf(rels, dir, root, maxDepth, order) && i < |order| && order[i].depth == 1
    ensures Linked(rels, dir, root, NodeOf(order[i]))
  {
    hide Distinct, Layered, Tree, Linked, Within;
    var p :| Leads(rels, dir, p, root, NodeOf(order[i]), 1);
    assert Hop(rels, dir, p, 1);
  }

  lemma NextIsDepthOne(rels: seq<AutoRelation>, dir: Direction, root: Node, maxDepth: int, order: seq<BfsNode>, m: Node) returns (i: nat)
    requires IsBfsOf(rels, dir, root, maxDepth, order) && maxDepth >= 1 && Linked(rels, dir, root, m)
    ensures i < |order| && order[i].depth == 1 && NodeOf(order[i]) == m
  {
    hide Distinct, Layered, Tree;
    var q := [root, m];
    assert Hop(rels, dir, q, 1);
    assert Leads(rels, dir, q, root, m, 1);
    assert Within(rels, dir, root, m, 1);
    i :| 0 <= i < |order| && NodeOf(order[i]) == m;
    assert ShortestDistance(rels, dir, root, m, order[i].depth);
    var p :| Leads(rels, dir, p, root, m, order[i].depth);
  }

  lemma StartAlone(rels: seq<AutoRelation>, dir: Direction, root: Node, maxDepth: int, order: seq<BfsNode>)
    requires IsBfsOf(rels, dir, root, maxDepth, order) && maxDepth <= 0
    ensures |order| == 1
  {
    assert |order| > 1 ==> NodeOf(order[0]) != NodeOf(order[1]);
    forall i | 0 <= i < |order| ensures NodeOf(order[i]) == root {
      assert Within(rels, dir, root, NodeOf(order[i]), 0);
    }
  }

  /** IN or OUT alone never passes depth 1; under BOTH the kind alternates level by level. */
  lemma BfsCorollaries(rels: seq<AutoRelation>, dir: Direction, root: Node, maxDepth: int, order: seq<BfsNode>, i: nat)
    requires IsBfsOf(rels, dir, root, maxDepth, order) && i < |order|
    ensures dir != Both ==> order[i].depth <= 1
    ensures order[i].kind == root.kind <==> order[i].depth % 2 == 0
  {
    var p :| Leads(rels, dir, p, root, NodeOf(order[i]), order[i].depth);
    WalkShape(rels, dir, p);
  }
}

/** The relation graph of the dashboard: scoping and shortest paths (static/app.js). */
module RelationGraph {
  import opened Ordering
  import opened Wrappers

  datatype Node = Node(id: string, kind: string, provenance: string)

  datatype Edge = Edge(source: string, target: string, relation: string)

  datatype Graph = Graph(nodes: seq<Node>, edges: seq<Edge>)

  /** graphEdgeKey: the sorted endpoints and the relation, joined by bars. */
  function EdgeKey(e: Edge): string {
    if StringLess(e.target, e.source) then e.target + "|" + e.source + "|" + e.relation
    else e.source + "|" + e.target + "|" + e.relation
  }

  /** A key names the two ends, in text order, and the relation: the direction of an edge does not matter. */
  lemma EdgeKeyExactly(e: Edge)
    ensures EdgeKey(e) == EdgeKey(Edge(e.target, e.source, e.relation))
    ensures !Precedes(e.target, e.source) ==> EdgeKey(e) == e.source + "|" + e.target + "|" + e.relation
  {
    StringLessExactly(e.target, e.source);
    StringLessExactly(e.source, e.target);
    if e.source != e.target {
      StringLessConnected(e.source, e.target);
      if StringLess(e.source, e.target) && StringLess(e.target, e.source) {
        StringLessTransitive(e.source, e.target, e.source);
        StringLessIrreflexive(e.source);
      }
    }
  }

  predicate Joins(e: Edge, x: string, y: string) {
    (e.source == x && e.target == y) || (e.target == x && e.source == y)
  }

  predicate HasNode(g: Graph, id: string) {
    exists n :: n in g.nodes && n.id == id
  }

  /** One neighbour in an adjacency list: {next, key}. */
  datatype Hop = Hop(next: string, key: string)

  /** Some edge of the list leads from x over the hop. */
  ghost predicate Offers(edges: seq<Edge>, x: string, hop: Hop) {
    exists e :: e in edges && Joins(e, x, hop.next) && hop.key == EdgeKey(e)
  }

  /** A hop the search can take: the adjacency map only has entries for the graph's own nodes. */
  ghost predicate HasHop(g: Graph, x: string, hop: Hop) {
    HasNode(g, x) && Offers(g.edges, x, hop)
  }

  ghost predicate Linked(g: Graph, x: string, y: string) {
    exists key :: HasHop(g, x, Hop(y, key))
  }

  /** y can be reached from x in exactly k hops. */
  ghost predicate Reach(g: Graph, x: string, y: string, k: nat)
    decreases k
  {
    if k == 0 then x == y
    else exists z :: Reach(g, x, z, k - 1) && Linked(g, z, y)
  }

  /** Every edge joins two nodes of the graph. */
  ghost predicate Closed(g: Graph) {
    forall e | e in g.edges :: HasNode(g, e.source) && HasNode(g, e.target)
  }

  lemma LinkedBothWays(g: Graph, x: string, y: string)
    requires Closed(g) && Linked(g, x, y)
    ensures Linked(g, y, x)
  {
    var key :| HasHop(g, x, Hop(y, key));
    var e :| e in g.edges && Joins(e, x, y) && key == EdgeKey(e);
    assert Offers(g.edges, y, Hop(x, key));
    assert HasHop(g, y, Hop(x, key));
  }

  lemma ReachAppend(g: Graph, x: string, z: string, y: string, k: nat)
    requires Reach(g, x, z, k) && Linked(g, z, y)
    ensures Reach(g, x, y, k + 1)
  {
  }

  lemma ReachSplit(g: Graph, x: string, y: string, k: nat) returns (z: string)
    requires k > 0 && Reach(g, x, y, k)
    ensures Reach(g, x, z, k - 1) && Linked(g, z, y)
  {
    z :| Reach(g, x, z, k - 1) && Linked(g, z, y);
  }

  lemma ReachZero(g: Graph, x: string, y: string)
    ensures Reach(g, x, y, 0) <==> x == y
  {
  }

  lemma HopOf(g: Graph, x: string, y: string) returns (key: string)
    requires Linked(g, x, y)
    ensures HasHop(g, x, Hop(y, key))
  {
    key :| HasHop(g, x, Hop(y, key));
  }

  lemma {:induction false} ReachPrepend(g: Graph, x: string, z: string, y: string, k: nat)
    requires Linked(g, x, z) && Reach(g, z, y, k)
    ensures Reach(g, x, y, k + 1)
    decreases k
  {
    hide Reach, Linked;
    if k == 0 {
      ReachZero(g, z, y);
      ReachZero(g, x, x);
      ReachAppend(g, x, x, z, 0);
    } else {
      var w := ReachSplit(g, z, y, k);
      ReachPrepend(g, x, z, w, k - 1);
      ReachAppend(g, x, w, y, k);
    }
  }

  /** On a closed graph the search sees an undirected graph. */
  lemma {:induction false} ReachBothWays(g: Graph, x: string, y: string, k: nat)
    requires Closed(g) && Reach(g, x, y, k)
    ensures Reach(g, y, x, k)
    decreases k
  {
    hide Reach, Linked, Closed;
    if k == 0 {
      ReachZero(g, x, y);
      ReachZero(g, y, x);
    } else {
      var z := ReachSplit(g, x, y, k);
      ReachBothWays(g, x, z, k - 1);
      LinkedBothWays(g, z, y);
      ReachPrepend(g, y, z, x, k - 1);
    }
  }

  /** A displayed path runs from its last node back to its first; edges[i] joins nodes i + 1 and i. */
  ghost predicate IsPath(g: Graph, source: string, target: string, nodes: seq<string>, edges: seq<string>) {
    && |nodes| == |edges| + 1
    && nodes[0] == target && nodes[|edges|] == source
    && forall i | 0 <= i < |edges| :: HasHop(g, nodes[i + 1], Hop(nodes[i], edges[i]))
  }

  /** Paths and hop counts are the same thing. */
  lemma {:induction false} PathIsReach(g: Graph, source: string, target: string,
                                       nodes: seq<string>, edges: seq<string>)
    requires IsPath(g, source, target, nodes, edges)
    ensures Reach(g, source, target, |edges|)
    decreases |edges|
  {
    if edges != [] {
      assert HasHop(g, nodes[1], Hop(nodes[0], edges[0]));
      forall i | 0 <= i < |edges[1..]| ensures HasHop(g, nodes[1..][i + 1], Hop(nodes[1..][i], edges[1..][i])) {
        assert HasHop(g, nodes[i + 2], Hop(nodes[i + 1], edges[i + 1]));
      }
      PathIsReach(g, source, nodes[1], nodes[1..], edges[1..]);
      ReachAppend(g, source, nodes[1], target, |edges| - 1);
    }
  }

  lemma {:induction false} ReachIsPath(g: Graph, source: string, target: string, k: nat)
    returns (nodes: seq<string>, edges: seq<string>)
    requires Reach(g, source, target, k)
    ensures IsPath(g, source, target, nodes, edges) && |edges| == k
    decreases k
  {
    hide Reach, Linked, HasHop;
    if k == 0 {
      ReachZero(g, source, target);
      nodes, edges := [target], [];
    } else {
      var z := ReachSplit(g, source, target, k);
      var key := HopOf(g, z, target);
      var earlier, keys := ReachIsPath(g, source, z, k - 1);
      nodes, edges := [target] + earlier, [key] + keys;
      forall i | 0 <= i < |edges| ensures HasHop(g, nodes[i + 1], Hop(nodes[i], edges[i])) {
        if i > 0 {
          assert HasHop(g, earlier[i], Hop(earlier[i - 1], keys[i - 1]));
        }
      }
    }
  }

  // ---------------------------------------------------------------------------------------------
  // Breadth-first search.

  /** Where a discovered node was first reached from, and over which edge. */
  datatype Parent = Root | From(node: string, edge: string)

  /** Every discovered node hangs on a discovered one that is one hop nearer to the source. */
  ghost predicate Tree(g: Graph, source: string, parent: map<string, Parent>, dist: map<string, nat>) {
    && parent.Keys == dist.Keys
    && source in dist && dist[source] == 0
    && forall x | x in parent && x != source ::
         && parent[x].From? && parent[x].node in dist
         && HasHop(g, parent[x].node, Hop(x, parent[x].edge))
         && dist[x] == dist[parent[x].node] + 1
  }

  /** The queue is ordered by distance and spans low and low + 1; nothing discovered is farther. */
  ghost predicate Frontier(dist: map<string, nat>, queue: seq<string>, low: nat) {
    && (forall x | x in dist :: dist[x] <= low + 1)
    && (forall i | 0 <= i < |queue| :: queue[i] in dist && low <= dist[queue[i]])
    && (forall i, j | 0 <= i < j < |queue| :: dist[queue[i]] <= dist[queue[j]])
  }

  ghost predicate Near(dist: map<string, nat>, y: string, d: nat) {
    y in dist && dist[y] <= d
  }

  ghost predicate Expanded(g: Graph, dist: map<string, nat>, x: string)
    requires x in dist
  {
    forall y | Linked(g, x, y) :: Near(dist, y, dist[x] + 1)
  }

  predicate Nearer(d: nat, limit: Option<nat>) {
    limit.None? || d < limit.value
  }

  /** Discovered nodes nearer than limit are still queued or have all their neighbours discovered. */
  ghost predicate Explored(g: Graph, dist: map<string, nat>, queue: seq<string>, limit: Option<nat>) {
    forall x | x in dist && Nearer(dist[x], limit) && x !in queue :: Expanded(g, dist, x)
  }

  lemma {:induction false} TreeReach(g: Graph, source: string, parent: map<string, Parent>, dist: map<string, nat>,
                                     x: string)
    requires Tree(g, source, parent, dist) && x in dist
    ensures Reach(g, source, x, dist[x])
    decreases dist[x]
  {
    hide Reach, HasHop;
    if x == source {
      ReachZero(g, source, source);
    } else {
      TreeReach(g, source, parent, dist, parent[x].node);
      assert Linked(g, parent[x].node, x);
      ReachAppend(g, source, parent[x].node, x, dist[parent[x].node]);
    }
  }

  /** Nothing nearer than the head of the queue is missing from the tree. */
  lemma {:induction false} NothingMissed(g: Graph, source: string, dist: map<string, nat>, queue: seq<string>,
                                         low: nat, limit: Option<nat>, x: string, k: nat)
    requires source in dist && dist[source] == 0
    requires Frontier(dist, queue, low) && Explored(g, dist, queue, limit)
    requires Reach(g, source, x, k) && (limit.None? || k <= limit.value)
    ensures Near(dist, x, k) || (queue != [] && dist[queue[0]] < k)
    decreases k
  {
    hide Reach, Linked, Frontier, Explored;
    if k == 0 {
      ReachZero(g, source, x);
    } else {
      var z := ReachSplit(g, source, x, k);
      NothingMissed(g, source, dist, queue, low, limit, z, k - 1);
      if Near(dist, z, k - 1) {
        NeighbourSeen(g, dist, queue, low, limit, z, x, k - 1);
      }
    }
  }

  lemma NeighbourSeen(g: Graph, dist: map<string, nat>, queue: seq<string>, low: nat, limit: Option<nat>,
                      z: string, x: string, d: nat)
    requires Frontier(dist, queue, low) && Explored(g, dist, queue, limit)
    requires Near(dist, z, d) && Linked(g, z, x) && Nearer(d, limit)
    ensures Near(dist, x, d + 1) || (queue != [] && dist[queue[0]] < d + 1)
  {
    if z in queue {
      var i :| 0 <= i < |queue| && queue[i] == z;
      assert dist[queue[0]] <= dist[queue[i]];
    } else {
      assert Expanded(g, dist, z);
    }
  }

  lemma NewLeaf(g: Graph, source: string, parent: map<string, Parent>, dist: map<string, nat>, queue: seq<string>,
                low: nat, x: string, hop: Hop)
    requires Tree(g, source, parent, dist) && Frontier(dist, queue, low)
    requires x in dist && dist[x] == low && HasHop(g, x, hop) && hop.next !in dist
    ensures Tree(g, source, parent[hop.next := From(x, hop.key)], dist[hop.next := low + 1])
    ensures Frontier(dist[hop.next := low + 1], queue + [hop.next], low)
  {
  }

  lemma ExploredKept(g: Graph, dist: map<string, nat>, queue: seq<string>, current: string,
                     limit: Option<nat>, y: string, d: nat)
    requires y !in dist && Explored(g, dist, queue + [current], limit)
    ensures Explored(g, dist[y := d], queue + [y] + [current], limit)
  {
    var after := dist[y := d];
    forall x | x in after && Nearer(after[x], limit) && x !in queue + [y] + [current] ensures Expanded(g, after, x) {
      assert x !in queue + [current];
      assert Expanded(g, dist, x);
      forall z | Linked(g, x, z) ensures Near(after, z, after[x] + 1) {
        assert Near(dist, z, dist[x] + 1);
      }
    }
  }

  /** Every id the graph mentions, and the source. */
  ghost function Universe(g: Graph, source: string): set<string> {
    {source} + (set e | e in g.edges :: e.source) + (set e | e in g.edges :: e.target)
  }

  /** The search after taking current off the queue, at distance low, while its neighbours are followed. */
  ghost predicate Searching(g: Graph, source: string, parent: map<string, Parent>, dist: map<string, nat>,
                            queue: seq<string>, current: string, low: nat, limit: Option<nat>) {
    && Tree(g, source, parent, dist)
    && Frontier(dist, queue, low)
    && current in dist && dist[current] == low
    && Explored(g, dist, queue + [current], limit)
    && dist.Keys <= Universe(g, source)
  }

  /** A neighbour seen for the first time. */
  lemma Discover(g: Graph, source: string, parent: map<string, Parent>, dist: map<string, nat>,
                 queue: seq<string>, current: string, low: nat, limit: Option<nat>, hop: Hop)
    requires Searching(g, source, parent, dist, queue, current, low, limit)
    requires HasHop(g, current, hop) && hop.next !in dist
    ensures Searching(g, source, parent[hop.next := From(current, hop.key)], dist[hop.next := low + 1],
                      queue + [hop.next], current, low, limit)
    ensures |dist[hop.next := low + 1]| == |dist| + 1
  {
    hide Tree, Frontier, Explored;
    NewLeaf(g, source, parent, dist, queue, low, current, hop);
    ExploredKept(g, dist, queue, current, limit, hop.next, low + 1);
    assert dist[hop.next := low + 1].Keys == dist.Keys + {hop.next};
  }

  /** Between two rounds of the search. */
  ghost predicate Waiting(g: Graph, source: string, parent: map<string, Parent>, dist: map<string, nat>,
                          queue: seq<string>, low: nat, limit: Option<nat>) {
    && Tree(g, source, parent, dist)
    && Frontier(dist, queue, low)
    && Explored(g, dist, queue, limit)
    && dist.Keys <= Universe(g, source)
  }

  lemma SearchStarts(g: Graph, source: string, limit: Option<nat>)
    ensures Waiting(g, source, map[source := Root], map[source := 0], [source], 0, limit)
  {
  }

  lemma Popped(g: Graph, source: string, parent: map<string, Parent>, dist: map<string, nat>, queue: seq<string>,
               low: nat, limit: Option<nat>)
    requires Waiting(g, source, parent, dist, queue, low, limit) && queue != []
    ensures queue[0] in dist
    ensures Searching(g, source, parent, dist, queue[1..], queue[0], dist[queue[0]], limit)
  {
  }

  lemma RoundDone(g: Graph, source: string, parent: map<string, Parent>, dist: map<string, nat>,
                  queue: seq<string>, current: string, low: nat, limit: Option<nat>)
    requires Searching(g, source, parent, dist, queue, current, low, limit)
    requires Nearer(low, limit) ==> Expanded(g, dist, current)
    ensures Waiting(g, source, parent, dist, queue, low, limit)
  {
  }

  /** What a search knows about x: the tree gives a shortest way, or there is no way within the limit. */
  lemma Found(g: Graph, source: string, parent: map<string, Parent>, dist: map<string, nat>, queue: seq<string>,
              low: nat, limit: Option<nat>, x: string)
    requires Waiting(g, source, parent, dist, queue, low, limit)
    ensures x in dist ==> Reach(g, source, x, dist[x])
    ensures forall k: nat | Reach(g, source, x, k) && (limit.None? || k <= limit.value) ::
              (x in dist ==> dist[x] <= k) && (x !in dist ==> queue != [])
  {
    hide Reach;
    if x in dist {
      TreeReach(g, source, parent, dist, x);
    }
    forall k: nat | Reach(g, source, x, k) && (limit.None? || k <= limit.value)
      ensures x in dist ==> dist[x] <= k
      ensures x !in dist ==> queue != []
    {
      NothingMissed(g, source, dist, queue, low, limit, x, k);
    }
  }

  lemma QueueBounded(g: Graph, source: string, dist: map<string, nat>)
    requires dist.Keys <= Universe(g, source)
    ensures |dist| <= |Universe(g, source)|
  {
    SubsetSize(dist.Keys, Universe(g, source));
  }

  /** Every hop of the list has been followed. */
  ghost predicate Followed(hops: seq<Hop>, dist: map<string, nat>, d: nat) {
    forall hop | hop in hops :: Near(dist, hop.next, d)
  }

  lemma FollowedAll(g: Graph, hops: seq<Hop>, dist: map<string, nat>, x: string)
    requires x in dist && Followed(hops, dist, dist[x] + 1)
    requires forall hop | HasHop(g, x, hop) :: hop in hops
    ensures Expanded(g, dist, x)
  {
    forall y | Linked(g, x, y) ensures Near(dist, y, dist[x] + 1) {
      var key :| HasHop(g, x, Hop(y, key));
      assert Hop(y, key) in hops;
    }
  }

  // ---------------------------------------------------------------------------------------------
  // Adjacency.

  /** The optional push of the adjacency map: nothing happens for an id without an entry. */
  function Pushed(adjacency: map<string, seq<Hop>>, x: string, hop: Hop): map<string, seq<Hop>> {
    if x in adjacency then adjacency[x := adjacency[x] + [hop]] else adjacency
  }

  function HopsFrom(adjacency: map<string, seq<Hop>>, x: string): seq<Hop> {
    if x in adjacency then adjacency[x] else []
  }

  /** The map holds, for the graph's own nodes, the hops of the given edges. */
  ghost predicate Adjacent(g: Graph, edges: seq<Edge>, adjacency: map<string, seq<Hop>>) {
    && (forall x :: x in adjacency <==> HasNode(g, x))
    && (forall x, hop | x in adjacency :: hop in adjacency[x] <==> Offers(edges, x, hop))
  }

  lemma OffersMore(edges: seq<Edge>, e: Edge, x: string, hop: Hop)
    ensures Offers(edges + [e], x, hop) <==> Offers(edges, x, hop) || (Joins(e, x, hop.next) && hop.key == EdgeKey(e))
  {
  }

  lemma EdgeAdded(g: Graph, edges: seq<Edge>, adjacency: map<string, seq<Hop>>, e: Edge)
    requires Adjacent(g, edges, adjacency)
    ensures Adjacent(g, edges + [e],
                     Pushed(Pushed(adjacency, e.source, Hop(e.target, EdgeKey(e))),
                            e.target, Hop(e.source, EdgeKey(e))))
  {
    hide Offers, EdgeKey;
    var after :=
      Pushed(Pushed(adjacency, e.source, Hop(e.target, EdgeKey(e))), e.target, Hop(e.source, EdgeKey(e)));
    forall x, hop | x in after ensures hop in after[x] <==> Offers(edges + [e], x, hop) {
      OffersMore(edges, e, x, hop);
    }
  }

  method BuildAdjacency(g: Graph) returns (adjacency: map<string, seq<Hop>>)
    ensures Adjacent(g, g.edges, adjacency)
  {
    adjacency := map[];
    for i := 0 to |g.nodes|
      invariant forall x :: x in adjacency <==> exists n :: n in g.nodes[..i] && n.id == x
      invariant forall x | x in adjacency :: adjacency[x] == []
    {
      adjacency := adjacency[g.nodes[i].id := []];
      assert g.nodes[..i + 1] == g.nodes[..i] + [g.nodes[i]];
    }
    assert g.nodes[..|g.nodes|] == g.nodes;
    for i := 0 to |g.edges|
      invariant Adjacent(g, g.edges[..i], adjacency)
    {
      var e := g.edges[i];
      EdgeAdded(g, g.edges[..i], adjacency, e);
      adjacency := Pushed(adjacency, e.source, Hop(e.target, EdgeKey(e)));
      adjacency := Pushed(adjacency, e.target, Hop(e.source, EdgeKey(e)));
      assert g.edges[..i + 1] == g.edges[..i] + [e];
    }
    assert g.edges[..|g.edges|] == g.edges;
  }

  lemma HopsAreHops(g: Graph, adjacency: map<string, seq<Hop>>, x: string)
    requires Adjacent(g, g.edges, adjacency)
    ensures forall hop :: hop in HopsFrom(adjacency, x) <==> HasHop(g, x, hop)
  {
  }

  // ---------------------------------------------------------------------------------------------
  // The two searches.

  /** The queue loop of findGraphPath. */
  method Search(g: Graph, adjacency: map<string, seq<Hop>>, source: string, target: string)
    returns (parent: map<string, Parent>, ghost dist: map<string, nat>)
    requires Adjacent(g, g.edges, adjacency)
    ensures Tree(g, source, parent, dist)
    ensures target in parent ==> forall k | Reach(g, source, target, k) :: dist[target] <= k
    ensures target !in parent ==> forall k :: !Reach(g, source, target, k)
  {
    hide Adjacent, Searching, Waiting, Universe, HasHop, Linked, Expanded, Reach, Explored, Frontier, Tree;
    parent := map[source := Root];
    dist := map[source := 0];
    var queue := [source];
    ghost var low: nat := 0;
    SearchStarts(g, source, None);
    while queue != [] && target !in parent
      invariant Waiting(g, source, parent, dist, queue, low, None) && parent.Keys == dist.Keys
      decreases |Universe(g, source)| - |dist| + |queue|
    {
      var current := queue[0];
      Popped(g, source, parent, dist, queue, low, None);
      ghost var before := |queue| - |dist|;
      low := dist[current];
      queue := queue[1..];
      var hops := HopsFrom(adjacency, current);
      HopsAreHops(g, adjacency, current);
      for j := 0 to |hops|
        invariant Searching(g, source, parent, dist, queue, current, low, None) && parent.Keys == dist.Keys
        invariant current in dist && dist[current] == low
        invariant Followed(hops[..j], dist, low + 1)
        invariant |queue| - |dist| == before - 1
      {
        var hop := hops[j];
        if hop.next !in parent {
          Discover(g, source, parent, dist, queue, current, low, None, hop);
          parent := parent[hop.next := From(current, hop.key)];
          dist := dist[hop.next := low + 1];
          queue := queue + [hop.next];
        }
        NextFollowed(g, source, parent, dist, queue, current, low, None, hops, j);
      }
      assert hops[..|hops|] == hops;
      FollowedAll(g, hops, dist, current);
      RoundDone(g, source, parent, dist, queue, current, low, None);
      Sized(g, source, parent, dist, queue, low, None);
    }
    Found(g, source, parent, dist, queue, low, None, target);
    assert Tree(g, source, parent, dist) by {
      WaitingTree(g, source, parent, dist, queue, low, None);
    }
  }

  lemma WaitingTree(g: Graph, source: string, parent: map<string, Parent>, dist: map<string, nat>,
                    queue: seq<string>, low: nat, limit: Option<nat>)
    requires Waiting(g, source, parent, dist, queue, low, limit)
    ensures Tree(g, source, parent, dist)
  {
  }

  lemma Sized(g: Graph, source: string, parent: map<string, Parent>, dist: map<string, nat>,
              queue: seq<string>, low: nat, limit: Option<nat>)
    requires Waiting(g, source, parent, dist, queue, low, limit)
    ensures |dist| <= |Universe(g, source)|
  {
    QueueBounded(g, source, dist);
  }

  lemma NextFollowed(g: Graph, source: string, parent: map<string, Parent>, dist: map<string, nat>,
                     queue: seq<string>, current: string, low: nat, limit: Option<nat>, hops: seq<Hop>, j: nat)
    requires Searching(g, source, parent, dist, queue, current, low, limit)
    requires j < |hops| && Followed(hops[..j], dist, low + 1) && hops[j].next in dist
    ensures Followed(hops[..j + 1], dist, low + 1)
  {
  }

  /** The parent chain of a found target, followed back to the source. */
  method PathBack(ghost g: Graph, parent: map<string, Parent>, ghost dist: map<string, nat>,
                  source: string, target: string)
    returns (nodes: seq<string>, edges: seq<string>)
    requires Tree(g, source, parent, dist) && target in parent
    ensures IsPath(g, source, target, nodes, edges) && |edges| == dist[target]
  {
    nodes, edges := [target], [];
    var current := target;
    while current != source
      invariant current in parent && |nodes| == |edges| + 1
      invariant IsPath(g, current, target, nodes, edges)
      invariant dist[current] + |edges| == dist[target]
      decreases dist[current]
    {
      var step := parent[current];
      assert step.From? && HasHop(g, step.node, Hop(current, step.edge));
      PathGrows(g, current, target, nodes, edges, step.node, step.edge);
      edges := edges + [step.edge];
      current := step.node;
      nodes := nodes + [current];
    }
  }

  lemma PathGrows(g: Graph, source: string, target: string, nodes: seq<string>, edges: seq<string>,
                  node: string, edge: string)
    requires IsPath(g, source, target, nodes, edges) && HasHop(g, node, Hop(source, edge))
    ensures IsPath(g, node, target, nodes + [node], edges + [edge])
  {
    hide HasHop;
    var longer, keys := nodes + [node], edges + [edge];
    forall i | 0 <= i < |keys| ensures HasHop(g, longer[i + 1], Hop(longer[i], keys[i])) {
      if i < |edges| {
        assert HasHop(g, nodes[i + 1], Hop(nodes[i], edges[i]));
      }
    }
  }

  // ---------------------------------------------------------------------------------------------
  // Scoping.

  ghost predicate Meets(edges: seq<Edge>, x: string, y: string) {
    exists e :: e in edges && Joins(e, x, y)
  }

  lemma LinkedMeets(g: Graph, x: string, y: string)
    ensures Linked(g, x, y) <==> HasNode(g, x) && Meets(g.edges, x, y)
  {
    if HasNode(g, x) && Meets(g.edges, x, y) {
      var e :| e in g.edges && Joins(e, x, y);
      assert Offers(g.edges, x, Hop(y, EdgeKey(e)));
      assert HasHop(g, x, Hop(y, EdgeKey(e)));
    }
  }

  /** Set.add in insertion order, for an id that has an entry. */
  function Added(adjacency: map<string, seq<string>>, x: string, y: string): map<string, seq<string>> {
    if x in adjacency && y !in adjacency[x] then adjacency[x := adjacency[x] + [y]] else adjacency
  }

  function NeighboursOf(adjacency: map<string, seq<string>>, x: string): seq<string> {
    if x in adjacency then adjacency[x] else []
  }

  ghost predicate Neighbouring(g: Graph, edges: seq<Edge>, adjacency: map<string, seq<string>>) {
    && (forall x :: x in adjacency <==> HasNode(g, x))
    && (forall x, y | x in adjacency :: y in adjacency[x] <==> Meets(edges, x, y))
  }

  lemma EdgeJoined(g: Graph, edges: seq<Edge>, adjacency: map<string, seq<string>>, e: Edge)
    requires Neighbouring(g, edges, adjacency)
    ensures Neighbouring(g, edges + [e], Added(Added(adjacency, e.source, e.target), e.target, e.source))
  {
    hide Meets;
    var after := Added(Added(adjacency, e.source, e.target), e.target, e.source);
    forall x, y | x in after ensures y in after[x] <==> Meets(edges + [e], x, y) {
      MeetsMore(edges, e, x, y);
    }
  }

  lemma MeetsMore(edges: seq<Edge>, e: Edge, x: string, y: string)
    ensures Meets(edges + [e], x, y) <==> Meets(edges, x, y) || Joins(e, x, y)
  {
  }

  method BuildNeighbours(g: Graph) returns (adjacency: map<string, seq<string>>)
    ensures Neighbouring(g, g.edges, adjacency)
  {
    adjacency := map[];
    for i := 0 to |g.nodes|
      invariant forall x :: x in adjacency <==> exists n :: n in g.nodes[..i] && n.id == x
      invariant forall x | x in adjacency :: adjacency[x] == []
    {
      adjacency := adjacency[g.nodes[i].id := []];
      assert g.nodes[..i + 1] == g.nodes[..i] + [g.nodes[i]];
    }
    assert g.nodes[..|g.nodes|] == g.nodes;
    for i := 0 to |g.edges|
      invariant Neighbouring(g, g.edges[..i], adjacency)
    {
      var e := g.edges[i];
      EdgeJoined(g, g.edges[..i], adjacency, e);
      adjacency := Added(adjacency, e.source, e.target);
      adjacency := Added(adjacency, e.target, e.source);
      assert g.edges[..i + 1] == g.edges[..i] + [e];
    }
    assert g.edges[..|g.edges|] == g.edges;
  }

  /** x lies at most depth hops from root. */
  ghost predicate Within(g: Graph, root: string, x: string, depth: nat) {
    exists k: nat :: k <= depth && Reach(g, root, x, k)
  }

  /** The ids of the distance map are exactly those within depth. */
  lemma DepthReached(g: Graph, root: string, parent: map<string, Parent>, dist: map<string, nat>, low: nat,
                     depth: nat, x: string)
    requires Waiting(g, root, parent, dist, [], low, Some(depth))
    ensures x in dist && dist[x] <= depth <==> Within(g, root, x, depth)
  {
    hide Reach, Waiting;
    Found(g, root, parent, dist, [], low, Some(depth), x);
  }

  /** The queue loop of graphScope, which does not expand nodes at the depth limit. */
  method Distances(g: Graph, root: string, maxDepth: nat) returns (distance: map<string, nat>)
    ensures forall x :: x in distance && distance[x] <= maxDepth <==> Within(g, root, x, maxDepth)
  {
    hide Neighbouring, Searching, Waiting, Universe, HasHop, Linked, Expanded, Reach, Explored, Frontier, Tree;
    var adjacency := BuildNeighbours(g);
    ghost var parent := map[root := Root];
    distance := map[root := 0];
    var queue := [root];
    ghost var low: nat := 0;
    ghost var limit := Some(maxDepth);
    SearchStarts(g, root, limit);
    while queue != []
      invariant Waiting(g, root, parent, distance, queue, low, limit)
      decreases |Universe(g, root)| - |distance| + |queue|
    {
      var current := queue[0];
      Popped(g, root, parent, distance, queue, low, limit);
      ghost var before := |queue| - |distance|;
      queue := queue[1..];
      var currentDepth := distance[current];
      low := currentDepth;
      if currentDepth < maxDepth {
        var hops := NeighboursOf(adjacency, current);
        for j := 0 to |hops|
          invariant Searching(g, root, parent, distance, queue, current, low, limit)
          invariant current in distance && distance[current] == low
          invariant AllNear(hops[..j], distance, low + 1)
          invariant |queue| - |distance| == before - 1
        {
          var next := hops[j];
          if next !in distance {
            ghost var key := NeighbourHop(g, adjacency, current, next);
            Discover(g, root, parent, distance, queue, current, low, limit, Hop(next, key));
            parent := parent[next := From(current, key)];
            distance := distance[next := currentDepth + 1];
            queue := queue + [next];
          }
          NextNear(g, root, parent, distance, queue, current, low, limit, hops, j);
        }
        assert hops[..|hops|] == hops;
        NeighboursAll(g, adjacency, distance, current);
      }
      RoundDone(g, root, parent, distance, queue, current, low, limit);
      Sized(g, root, parent, distance, queue, low, limit);
    }
    forall x ensures x in distance && distance[x] <= maxDepth <==> Within(g, root, x, maxDepth) {
      DepthReached(g, root, parent, distance, low, maxDepth, x);
    }
  }

  ghost predicate AllNear(ids: seq<string>, dist: map<string, nat>, d: nat) {
    forall y | y in ids :: Near(dist, y, d)
  }

  lemma NextNear(g: Graph, source: string, parent: map<string, Parent>, dist: map<string, nat>, queue: seq<string>,
                 current: string, low: nat, limit: Option<nat>, ids: seq<string>, j: nat)
    requires Searching(g, source, parent, dist, queue, current, low, limit)
    requires j < |ids| && AllNear(ids[..j], dist, low + 1) && ids[j] in dist
    ensures AllNear(ids[..j + 1], dist, low + 1)
  {
  }

  lemma NeighbourHop(g: Graph, adjacency: map<string, seq<string>>, x: string, y: string) returns (key: string)
    requires Neighbouring(g, g.edges, adjacency) && y in NeighboursOf(adjacency, x)
    ensures HasHop(g, x, Hop(y, key))
  {
    LinkedMeets(g, x, y);
    key := HopOf(g, x, y);
  }

  lemma NeighboursAll(g: Graph, adjacency: map<string, seq<string>>, dist: map<string, nat>, x: string)
    requires Neighbouring(g, g.edges, adjacency) && x in dist
    requires AllNear(NeighboursOf(adjacency, x), dist, dist[x] + 1)
    ensures Expanded(g, dist, x)
  {
    forall y | Linked(g, x, y) ensures Near(dist, y, dist[x] + 1) {
      LinkedMeets(g, x, y);
    }
  }

  function NodesIn(nodes: seq<Node>, allowed: set<string>): (r: seq<Node>)
    ensures forall n :: n in r <==> n in nodes && n.id in allowed
  {
    if nodes == [] then []
    else
      var rest := NodesIn(nodes[..|nodes| - 1], allowed);
      var n := nodes[|nodes| - 1];
      if n.id in allowed then rest + [n] else rest
  }

  function EdgesIn(edges: seq<Edge>, allowed: set<string>): (r: seq<Edge>)
    ensures forall e :: e in r <==> e in edges && e.source in allowed && e.target in allowed
  {
    if edges == [] then []
    else
      var rest := EdgesIn(edges[..|edges| - 1], allowed);
      var e := edges[|edges| - 1];
      if e.source in allowed && e.target in allowed then rest + [e] else rest
  }

  /** Both filters of one stage. */
  function Restricted(g: Graph, allowed: set<string>): Graph {
    Graph(NodesIn(g.nodes, allowed), EdgesIn(g.edges, allowed))
  }

  /** The ids of the nodes that pass a test; an id passes when any node carrying it does. */
  predicate Evidence(n: Node) {
    n.provenance != "enrichment"
  }

  predicate OfKind(n: Node, kind: string) {
    n.kind == kind || n.kind == "event" || n.kind == "session"
  }

  /** The toolbar: graph-evidence-only, graph-depth and graph-kind-filter. */
  datatype Toolbar = Toolbar(evidenceOnly: bool, depth: Option<nat>, kind: string)

  function EvidenceScope(g: Graph, t: Toolbar): Graph {
    if t.evidenceOnly then Restricted(g, set n | n in g.nodes && Evidence(n) :: n.id) else g
  }

  /** nodes.find: the first session node. */
  function SessionRoot(nodes: seq<Node>): (r: Option<string>)
    ensures r.None? <==> forall n | n in nodes :: n.kind != "session"
    ensures r.Some? ==> exists i :: 0 <= i < |nodes| && nodes[i].kind == "session" && nodes[i].id == r.value
                                    && forall j | 0 <= j < i :: nodes[j].kind != "session"
  {
    if nodes == [] then None
    else if nodes[0].kind == "session" then Some(nodes[0].id)
    else SessionRoot(nodes[1..])
  }

  ghost function DepthScope(g: Graph, t: Toolbar): Graph {
    if t.depth.Some? && SessionRoot(g.nodes).Some? then
      Restricted(g, set x | x in Universe(g, SessionRoot(g.nodes).value)
                            && Within(g, SessionRoot(g.nodes).value, x, t.depth.value))
    else g
  }

  function KindScope(g: Graph, t: Toolbar): Graph {
    if t.kind != "" then Restricted(g, set n | n in g.nodes && OfKind(n, t.kind) :: n.id) else g
  }

  ghost function Scope(g: Graph, t: Toolbar): Graph {
    KindScope(DepthScope(EvidenceScope(g, t), t), t)
  }

  /** Exactly which nodes the depth stage keeps: those at most depth hops from the session root. */
  lemma DepthScopeKeeps(g: Graph, t: Toolbar, n: Node)
    requires t.depth.Some? && SessionRoot(g.nodes).Some?
    ensures n in DepthScope(g, t).nodes <==>
            n in g.nodes && Within(g, SessionRoot(g.nodes).value, n.id, t.depth.value)
  {
    var root := SessionRoot(g.nodes).value;
    if Within(g, root, n.id, t.depth.value) {
      var k: nat :| k <= t.depth.value && Reach(g, root, n.id, k);
    }
  }

  /** The positions given hold exactly the elements that pass, in order. */
  ghost predicate InOrder<T(!new)>(all: seq<T>, passes: T -> bool, kept: seq<T>, at: seq<nat>) {
    && |at| == |kept|
    && (forall i, j | 0 <= i < j < |at| :: at[i] < at[j])
    && (forall i | 0 <= i < |at| :: at[i] < |all| && passes(all[at[i]]) && kept[i] == all[at[i]])
    && (forall k | 0 <= k < |all| && passes(all[k]) :: k in at)
  }

  lemma InOrderNext<T(!new)>(all: seq<T>, passes: T -> bool, kept: seq<T>, at: seq<nat>, x: T)
    requires InOrder(all, passes, kept, at)
    ensures if passes(x) then InOrder(all + [x], passes, kept + [x], at + [|all|])
            else InOrder(all + [x], passes, kept, at)
  {
  }

  /** Filtering keeps the order of the nodes. */
  lemma {:induction false} NodesInOrder(nodes: seq<Node>, allowed: set<string>) returns (at: seq<nat>)
    ensures InOrder(nodes, (n: Node) => n.id in allowed, NodesIn(nodes, allowed), at)
  {
    at := [];
    if nodes != [] {
      var front, last := nodes[..|nodes| - 1], nodes[|nodes| - 1];
      var passes := (n: Node) => n.id in allowed;
      assert nodes == front + [last];
      at := NodesInOrder(front, allowed);
      InOrderNext(front, passes, NodesIn(front, allowed), at, last);
      at := if passes(last) then at + [|front|] else at;
    }
  }

  /** And that of the edges. */
  lemma {:induction false} EdgesInOrder(edges: seq<Edge>, allowed: set<string>) returns (at: seq<nat>)
    ensures InOrder(edges, (e: Edge) => e.source in allowed && e.target in allowed, EdgesIn(edges, allowed), at)
  {
    at := [];
    if edges != [] {
      var front, last := edges[..|edges| - 1], edges[|edges| - 1];
      var passes := (e: Edge) => e.source in allowed && e.target in allowed;
      assert edges == front + [last];
      at := EdgesInOrder(front, allowed);
      InOrderNext(front, passes, EdgesIn(front, allowed), at, last);
      at := if passes(last) then at + [|front|] else at;
    }
  }

  /** What the toolbar asks of an id at each stage: evidence, nearness to the session, kind. */
  ghost predicate Passes(g: Graph, t: Toolbar, id: string) {
    var first := EvidenceScope(g, t);
    var second := DepthScope(first, t);
    var root := SessionRoot(first.nodes);
    && (t.evidenceOnly ==> exists m :: m in g.nodes && m.id == id && m.provenance != "enrichment")
    && (t.depth.Some? && root.Some? ==> Within(first, root.value, id, t.depth.value))
    && (t.kind != "" ==> exists m :: m in second.nodes && m.id == id && m.kind in {t.kind, "event", "session"})
  }

  /** Exactly the nodes whose id passes every stage are kept, and exactly the edges both of whose ends do. */
  lemma ScopeExactly(g: Graph, t: Toolbar)
    ensures forall n :: n in Scope(g, t).nodes <==> n in g.nodes && Passes(g, t, n.id)
    ensures forall e :: e in Scope(g, t).edges <==> e in g.edges && Passes(g, t, e.source) && Passes(g, t, e.target)
  {
    hide Within, NodesIn, EdgesIn, SessionRoot;
    var first := EvidenceScope(g, t);
    var second := DepthScope(first, t);
    var root := SessionRoot(first.nodes);
    if t.depth.Some? && root.Some? {
      forall id | Within(first, root.value, id, t.depth.value) ensures id in Universe(first, root.value) {
        WithinUniverse(first, root.value, id, t.depth.value);
      }
    }
  }

  lemma WithinUniverse(g: Graph, root: string, x: string, depth: nat)
    requires Within(g, root, x, depth)
    ensures x in Universe(g, root)
  {
    var k: nat :| k <= depth && Reach(g, root, x, k);
  }

  method FilterNodes(nodes: seq<Node>, allowed: set<string>) returns (kept: seq<Node>)
    ensures kept == NodesIn(nodes, allowed)
  {
    kept := [];
    for i := 0 to |nodes|
      invariant kept == NodesIn(nodes[..i], allowed)
    {
      assert nodes[..i + 1][..i] == nodes[..i];
      if nodes[i].id in allowed {
        kept := kept + [nodes[i]];
      }
    }
    assert nodes[..|nodes|] == nodes;
  }

  method FilterEdges(edges: seq<Edge>, allowed: set<string>) returns (kept: seq<Edge>)
    ensures kept == EdgesIn(edges, allowed)
  {
    kept := [];
    for i := 0 to |edges|
      invariant kept == EdgesIn(edges[..i], allowed)
    {
      assert edges[..i + 1][..i] == edges[..i];
      if edges[i].source in allowed && edges[i].target in allowed {
        kept := kept + [edges[i]];
      }
    }
    assert edges[..|edges|] == edges;
  }

  method GraphScope(graph: Graph, t: Toolbar) returns (scoped: Graph)
    ensures scoped == Scope(graph, t)
  {
    hide Within, NodesIn, EdgesIn;
    var nodes, edges := graph.nodes, graph.edges;
    if t.evidenceOnly {
      var allowed := set n | n in nodes && Evidence(n) :: n.id;
      nodes := FilterNodes(nodes, allowed);
      edges := FilterEdges(edges, allowed);
    }
    ghost var first := Graph(nodes, edges);
    assert first == EvidenceScope(graph, t);
    if t.depth.Some? {
      var root := SessionRoot(nodes);
      if root.Some? {
        var distance := Distances(Graph(nodes, edges), root.value, t.depth.value);
        var allowed := set x | x in distance && distance[x] <= t.depth.value;
        DepthAllowed(first, root.value, t.depth.value, allowed);
        nodes := FilterNodes(nodes, allowed);
        edges := FilterEdges(edges, allowed);
      }
    }
    assert Graph(nodes, edges) == DepthScope(first, t);
    if t.kind != "" {
      var allowed := set n | n in nodes && OfKind(n, t.kind) :: n.id;
      nodes := FilterNodes(nodes, allowed);
      edges := FilterEdges(edges, allowed);
    }
    scoped := Graph(nodes, edges);
  }

  lemma DepthAllowed(g: Graph, root: string, depth: nat, allowed: set<string>)
    requires forall x :: x in allowed <==> Within(g, root, x, depth)
    ensures allowed == set x | x in Universe(g, root) && Within(g, root, x, depth)
  {
    forall x | x in allowed ensures x in Universe(g, root) {
      var k: nat :| k <= depth && Reach(g, root, x, k);
    }
  }

  /** Scoping invents nothing. */
  ghost predicate PartOf(h: Graph, g: Graph) {
    && (forall n | n in h.nodes :: n in g.nodes)
    && (forall e | e in h.edges :: e in g.edges)
  }

  lemma ScopeIsPart(g: Graph, t: Toolbar)
    ensures PartOf(Scope(g, t), g)
    ensures Closed(g) ==> Closed(Scope(g, t))
  {
    hide PartOf, Closed, Restricted, Within, Universe;
    var first := EvidenceScope(g, t);
    var second := DepthScope(first, t);
    StageIsPart(g, set n | n in g.nodes && Evidence(n) :: n.id);
    PartOfSelf(g);
    DepthIsPart(first, t);
    StageIsPart(second, set n | n in second.nodes && OfKind(n, t.kind) :: n.id);
    PartOfSelf(second);
    PartTransitive(second, first, g);
    PartTransitive(Scope(g, t), second, g);
  }

  lemma DepthIsPart(g: Graph, t: Toolbar)
    ensures PartOf(DepthScope(g, t), g)
    ensures Closed(g) ==> Closed(DepthScope(g, t))
  {
    hide PartOf, Closed, Restricted, Within, Universe;
    PartOfSelf(g);
    if t.depth.Some? && SessionRoot(g.nodes).Some? {
      StageIsPart(g, set x | x in Universe(g, SessionRoot(g.nodes).value)
                             && Within(g, SessionRoot(g.nodes).value, x, t.depth.value));
    }
  }

  lemma PartOfSelf(g: Graph)
    ensures PartOf(g, g)
  {
  }

  lemma PartTransitive(a: Graph, b: Graph, c: Graph)
    requires PartOf(a, b) && PartOf(b, c)
    ensures PartOf(a, c)
  {
  }

  lemma StageIsPart(g: Graph, allowed: set<string>)
    ensures PartOf(Restricted(g, allowed), g)
    ensures Closed(g) ==> Closed(Restricted(g, allowed))
  {
    if Closed(g) {
      forall e | e in Restricted(g, allowed).edges
        ensures HasNode(Restricted(g, allowed), e.source) && HasNode(Restricted(g, allowed), e.target)
      {
        var a :| a in g.nodes && a.id == e.source;
        var b :| b in g.nodes && b.id == e.target;
        assert a in Restricted(g, allowed).nodes && b in Restricted(g, allowed).nodes;
      }
    }
  }

  lemma PartHop(h: Graph, g: Graph, x: string, hop: Hop)
    requires PartOf(h, g) && HasHop(h, x, hop)
    ensures HasHop(g, x, hop)
  {
    var e :| e in h.edges && Joins(e, x, hop.next) && hop.key == EdgeKey(e);
    assert e in g.edges;
  }

  /** A path shown in a scope is a path of the whole graph. */
  lemma ScopedPathIsPath(g: Graph, t: Toolbar, source: string, target: string,
                         nodes: seq<string>, edges: seq<string>)
    requires IsPath(Scope(g, t), source, target, nodes, edges)
    ensures IsPath(g, source, target, nodes, edges)
  {
    ScopeIsPart(g, t);
    forall i | 0 <= i < |edges| ensures HasHop(g, nodes[i + 1], Hop(nodes[i], edges[i])) {
      PartHop(Scope(g, t), g, nodes[i + 1], Hop(nodes[i], edges[i]));
    }
  }

  // ---------------------------------------------------------------------------------------------
  // The dashboard state.

  datatype PathOutcome = Ignored | NoPath | PathShown

  class RelationState {
    var relationGraph: Option<Graph>
    var relationPathNodes: seq<string>
    var relationPathEdges: seq<string>

    method ClearGraphPath()
      modifies `relationPathNodes, `relationPathEdges
      ensures relationPathNodes == [] && relationPathEdges == []
    {
      relationPathNodes := [];
      relationPathEdges := [];
    }

    /** source and target are the two path selectors; an empty one means nothing is selected. */
    method FindGraphPath(t: Toolbar, source: string, target: string) returns (outcome: PathOutcome)
      modifies `relationPathNodes, `relationPathEdges
      ensures outcome.Ignored? <==> relationGraph.None? || source == "" || target == ""
      ensures outcome.Ignored? ==>
                relationPathNodes == old(relationPathNodes) && relationPathEdges == old(relationPathEdges)
      ensures outcome.NoPath? ==>
                && relationPathNodes == [] && relationPathEdges == []
                && forall k :: !Reach(Scope(relationGraph.value, t), source, target, k)
      ensures outcome.PathShown? ==>
                && IsPath(Scope(relationGraph.value, t), source, target, relationPathNodes, relationPathEdges)
                && forall k | Reach(Scope(relationGraph.value, t), source, target, k) :: |relationPathEdges| <= k
    {
      hide Scope, Reach, Adjacent, Tree, IsPath;
      if relationGraph.None? {
        return Ignored;
      }
      var scoped := GraphScope(relationGraph.value, t);
      if source == "" || target == "" {
        return Ignored;
      }
      var adjacency := BuildAdjacency(scoped);
      var parent, dist := Search(scoped, adjacency, source, target);
      if target !in parent {
        ClearGraphPath();
        return NoPath;
      }
      var nodes, edges := PathBack(scoped, parent, dist, source, target);
      relationPathNodes := nodes;
      relationPathEdges := edges;
      return PathShown;
    }
  }
}

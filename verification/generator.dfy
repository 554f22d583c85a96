/** `generateSample` of src/Graph.tsx: a stress-test graph of nodes
    `a1..an` laid out twenty to a row, 200 units apart, joined by a path
    of edges `a1 -> a2 -> ... -> an`. The random type choices are passed
    in as indices into the type tables.
 */
module Generator {
  import Decimal
  import opened GraphModel

  /** `totalNodes ? totalNodes : 0`: NaN and 0 become 0; any other
      integer, negative ones included, is kept. */
  function NumNodes(count: Count): (n: int)
    ensures count.None? ==> n == 0
    ensures count.Some? ==> n == count.value
  {
    match count
    case None => 0
    case Some(v) => if v == 0 then 0 else v
  }

  /** How many times `for (let i = 1; i <= numNodes; i++)` runs: a
      positive count as it is, and 0 for NaN, zero or a negative count. */
  function Size(count: Count): (n: nat)
    ensures count.Some? && count.value > 0 ==> n == count.value
    ensures !(count.Some? && count.value > 0) ==> n == 0
  {
    var m := NumNodes(count);
    if m > 0 then m else 0
  }

  /** The key `a${i}` of the i-th generated node. */
  function GenKey(i: nat): Key
  {
    Text("a" + Decimal.Show(i))
  }

  /** The title `Node ${i}` of the i-th generated node. */
  function GenTitle(i: nat): string
  {
    "Node " + Decimal.Show(i)
  }

  /** Where the i-th generated node (counting from 1) sits: column
      `i mod 20`, row `i div 20`, 200 units apart. */
  function GridPoint(i: nat): (p: Point)
    ensures 0 <= p.x < 4000 && 0 <= p.y
    ensures p.x % 200 == 0 && p.y % 200 == 0
    ensures 20 * (p.y / 200) + p.x / 200 == i
  {
    Point(200 * (i % 20), 200 * (i / 20))
  }

  /** The i-th generated node, given its randomly chosen type. */
  function GridNode(i: nat, t: NodeType): Node
  {
    Node(GenKey(i), GenTitle(i), t, None, Some(GridPoint(i)))
  }

  /** The i-th generated edge, from `a{i}` to `a{i+1}`. */
  function PathEdge(i: nat, t: EdgeType): Edge
  {
    Edge(GenKey(i), GenKey(i + 1), t, None, None)
  }

  /** Random choices that are all valid indices into their table. */
  predicate ValidPicks(picks: seq<nat>, n: nat, tableSize: nat)
  {
    n <= |picks| && forall k :: 0 <= k < n ==> picks[k] < tableSize
  }

  /** `g` is the generated sample of `n` nodes for the given choices. */
  predicate IsSample(g: Graph, n: nat,
                     nodeTypes: seq<NodeType>, nodePicks: seq<nat>,
                     edgeTypes: seq<EdgeType>, edgePicks: seq<nat>)
    requires ValidPicks(nodePicks, n, |nodeTypes|)
    requires ValidPicks(edgePicks, if n > 0 then n - 1 else 0, |edgeTypes|)
  {
    && |g.nodes| == n
    && (forall k :: 0 <= k < n ==> g.nodes[k] == GridNode(k + 1, nodeTypes[nodePicks[k]]))
    && |g.edges| == (if n > 0 then n - 1 else 0)
    && (forall k :: 0 <= k < |g.edges| ==> g.edges[k] == PathEdge(k + 1, edgeTypes[edgePicks[k]]))
  }

  /** Distinct counters give distinct node keys. */
  lemma GenKeyInjective(i: nat, j: nat)
    requires GenKey(i) == GenKey(j)
    ensures i == j
  {
    assert ("a" + Decimal.Show(i))[1..] == Decimal.Show(i);
    assert ("a" + Decimal.Show(j))[1..] == Decimal.Show(j);
    Decimal.ShowInjective(i, j);
  }

  /** One step of the x/y counters: moving from counter i - 1 to i either
      starts a new row or moves one column right. */
  lemma CounterStep(i: nat)
    requires i >= 1
    ensures i % 20 == 0 ==> 0 == i % 20 && (i - 1) / 20 + 1 == i / 20
    ensures i % 20 != 0 ==> (i - 1) % 20 + 1 == i % 20 && (i - 1) / 20 == i / 20
  {
  }

  /** Builds the sample with the two loops of `generateSample`; the x/y counters of
      the first loop track column and row of the grid. */
  method GenerateSample(count: Count,
                        nodeTypes: seq<NodeType>, nodePicks: seq<nat>,
                        edgeTypes: seq<EdgeType>, edgePicks: seq<nat>)
    returns (g: Graph)
    requires ValidPicks(nodePicks, Size(count), |nodeTypes|)
    requires ValidPicks(edgePicks, if Size(count) > 0 then Size(count) - 1 else 0, |edgeTypes|)
    ensures |g.nodes| == Size(count)
    ensures forall k :: 0 <= k < |g.nodes| ==> g.nodes[k].id == GenKey(k + 1)
    ensures forall k :: 0 <= k < |g.nodes| ==> g.nodes[k].pos == Some(Point(200 * ((k + 1) % 20), 200 * ((k + 1) / 20)))
    ensures IsSample(g, Size(count), nodeTypes, nodePicks, edgeTypes, edgePicks)
  {
    var numNodes := NumNodes(count);
    var nodes: seq<Node> := [];
    var edges: seq<Edge> := [];
    var x, y := 0, 0;
    var i := 1;
    while i <= numNodes
      invariant 1 <= i <= Size(count) + 1
      invariant |nodes| == i - 1
      invariant x == (i - 1) % 20 && y == (i - 1) / 20
      invariant forall k :: 0 <= k < i - 1 ==> nodes[k] == GridNode(k + 1, nodeTypes[nodePicks[k]])
    {
      CounterStep(i);
      if i % 20 == 0 {
        y := y + 1;
        x := 0;
      } else {
        x := x + 1;
      }
      var node := Node(GenKey(i), GenTitle(i), nodeTypes[nodePicks[i - 1]], None, Some(Point(0 + 200 * x, 0 + 200 * y)));
      assert node == GridNode(i, nodeTypes[nodePicks[i - 1]]);
      nodes := nodes + [node];
      i := i + 1;
    }
    i := 1;
    while i < numNodes
      invariant 1 <= i && (i <= numNodes || i == 1)
      invariant |edges| == i - 1
      invariant forall k :: 0 <= k < i - 1 ==> edges[k] == PathEdge(k + 1, edgeTypes[edgePicks[k]])
    {
      edges := edges + [Edge(GenKey(i), GenKey(i + 1), edgeTypes[edgePicks[i - 1]], None, None)];
      i := i + 1;
    }
    g := Graph(nodes, edges);
  }

  /** A generated sample is a well-formed graph: distinct keys, every
      edge endpoint a generated node, and no self loop. */
  lemma SampleWellFormed(g: Graph, n: nat,
                         nodeTypes: seq<NodeType>, nodePicks: seq<nat>,
                         edgeTypes: seq<EdgeType>, edgePicks: seq<nat>)
    requires ValidPicks(nodePicks, n, |nodeTypes|)
    requires ValidPicks(edgePicks, if n > 0 then n - 1 else 0, |edgeTypes|)
    requires IsSample(g, n, nodeTypes, nodePicks, edgeTypes, edgePicks)
    ensures UniqueKeys(g.nodes)
    ensures Connected(g)
    ensures NoSelfLoops(g.edges)
  {
    forall i, j | 0 <= i < j < |g.nodes|
      ensures g.nodes[i].id != g.nodes[j].id
    {
      if g.nodes[i].id == g.nodes[j].id {
        assert GenKey(i + 1) == GenKey(j + 1);
        GenKeyInjective(i + 1, j + 1);
      }
    }
    forall e | e in g.edges
      ensures e.source in Keys(g.nodes) && e.target in Keys(g.nodes)
      ensures e.source != e.target
    {
      var k :| 0 <= k < |g.edges| && g.edges[k] == e;
      assert g.nodes[k].id == e.source;
      assert g.nodes[k + 1].id == e.target;
    }
  }
}

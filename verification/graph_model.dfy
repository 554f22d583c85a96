/** The editor's data: nodes, edges, the current selection, and the
    invariants an edited graph is expected to keep. Modelled on the
    `Graph` component of src/Graph.tsx.
 */
module GraphModel {
  import Lookup

  datatype Option<T> = None | Some(value: T)

  /** A node's identity key. The hand-authored and generated samples use
      strings (`'a1'`); nodes made by a gesture use `Date.now()`, a
      number. JavaScript's `===` never equates a string with a number,
      and neither does equality on this datatype. */
  datatype Key = Text(text: string) | Stamp(millis: int)

  /** Node categories of the type table (the table itself lives in a
      configuration file that is not part of this model). */
  datatype NodeType = EmptyType | SpecialType | PolyType | SkinnyType | ComplexCircleType

  datatype NodeSubtype = SpecialChildSubtype

  datatype EdgeType = EmptyEdgeType | SpecialEdgeType

  /** Canvas position; coordinates are whole numbers in this model. */
  datatype Point = Point(x: int, y: int)

  /** A node; `pos` is None for a node given without coordinates. */
  datatype Node = Node(
    id: Key,
    title: string,
    ntype: NodeType,
    subtype: Option<NodeSubtype>,
    pos: Option<Point>)

  /** An edge between two node keys, with optional label and tooltip. */
  datatype Edge = Edge(
    source: Key,
    target: Key,
    etype: EdgeType,
    handleText: Option<string>,
    handleTooltipText: Option<string>)

  /** What `selected` holds: nothing (JavaScript null), a node or an edge. */
  datatype Selection = NoSelection | NodeSelected(node: Node) | EdgeSelected(edge: Edge)

  datatype Graph = Graph(nodes: seq<Node>, edges: seq<Edge>)

  /** A node count as JavaScript's `parseInt` produces it: an integer, or
      None for NaN. */
  type Count = Option<int>

  /** The component state: the graph, the selection and the requested
      size of a generated sample. */
  datatype State = State(graph: Graph, selected: Selection, totalNodes: Count)

  /** The keys of all nodes. */
  function Keys(nodes: seq<Node>): set<Key>
  {
    set n | n in nodes :: n.id
  }

  /** Referential integrity: every edge endpoint names a node of the graph. */
  predicate Connected(g: Graph)
  {
    forall e :: e in g.edges ==> e.source in Keys(g.nodes) && e.target in Keys(g.nodes)
  }

  /** No two nodes share a key. */
  predicate UniqueKeys(nodes: seq<Node>)
  {
    forall i, j :: 0 <= i < j < |nodes| ==> nodes[i].id != nodes[j].id
  }

  /** No edge leaves and enters the same node. */
  predicate NoSelfLoops(edges: seq<Edge>)
  {
    forall e :: e in edges ==> e.source != e.target
  }

  /** Whether an edge has the given key at either end. */
  predicate Touches(e: Edge, key: Key)
  {
    e.source == key || e.target == key
  }

  /** getNodeIndex: the position of the first node with key `key`, or -1. */
  function NodeIndex(nodes: seq<Node>, key: Key): (r: int)
    ensures -1 <= r < |nodes|
    ensures r == -1 <==> key !in Keys(nodes)
    ensures r >= 0 ==> nodes[r].id == key
    ensures r >= 0 ==> forall j :: 0 <= j < r ==> nodes[j].id != key
  {
    Lookup.FindIndex(nodes, (n: Node) => n.id == key)
  }

  /** getEdgeIndex: the position of the first edge running exactly from
      `source` to `target`, or -1. */
  function EdgeIndex(edges: seq<Edge>, source: Key, target: Key): (r: int)
    ensures -1 <= r < |edges|
    ensures r == -1 <==> forall j :: 0 <= j < |edges| ==> !(edges[j].source == source && edges[j].target == target)
    ensures r >= 0 ==> edges[r].source == source && edges[r].target == target
    ensures r >= 0 ==> forall j :: 0 <= j < r ==> !(edges[j].source == source && edges[j].target == target)
  {
    Lookup.FindIndex(edges, (e: Edge) => e.source == source && e.target == target)
  }

  /** getViewNode: the first node with key `key`; None stands for the
      `undefined` that `nodes[-1]` yields on a miss. */
  function ViewNode(nodes: seq<Node>, key: Key): (r: Option<Node>)
    ensures r.Some? <==> key in Keys(nodes)
    ensures r.Some? ==> r.value.id == key && r.value in nodes
    ensures r.Some? ==> exists i :: 0 <= i < |nodes| && nodes[i] == r.value
                                    && forall j :: 0 <= j < i ==> nodes[j].id != key
  {
    var i := NodeIndex(nodes, key);
    if i == -1 then None else Some(nodes[i])
  }

  /** With unique keys, looking up a node's own key finds that node. */
  lemma {:induction false} NodeIndexOfUnique(nodes: seq<Node>, i: int)
    requires UniqueKeys(nodes)
    requires 0 <= i < |nodes|
    ensures NodeIndex(nodes, nodes[i].id) == i
  {
    assert nodes[i].id in Keys(nodes);
  }

  /** The hand-authored graph the editor starts with. */
  function SampleGraph(): Graph
  {
    Graph(
      [ Node(Text("start1"), "Agent_1P", SpecialType, None, None),
        Node(Text("a1"), "GIG", PolyType, None, Some(Point(200, 0))),
        Node(Text("a2"), "Moniker", EmptyType, Some(SpecialChildSubtype), Some(Point(400, 0))),
        Node(Text("a4"), "Normalizer", EmptyType, None, Some(Point(650, 0))),
        Node(Text("a5"), "Scrubber", EmptyType, None, Some(Point(900, -100))),
        Node(Text("a6"), "Kusto", EmptyType, None, Some(Point(900, 100))) ],
      [ Edge(Text("start1"), Text("a1"), SpecialEdgeType, Some("5"), Some("5")),
        Edge(Text("a1"), Text("a2"), SpecialEdgeType, Some("5"), Some("This edge connects Node A and Node B")),
        Edge(Text("a2"), Text("a4"), EmptyEdgeType, Some("54"), None),
        Edge(Text("a4"), Text("a5"), EmptyEdgeType, Some("50ms"), None),
        Edge(Text("a4"), Text("a6"), EmptyEdgeType, Some("54ms"), None) ])
  }

  /** The constructor's state: the sample graph, nothing selected, and a
      requested size equal to the sample's node count. */
  function InitialState(): (s: State)
    ensures s.selected == NoSelection
    ensures s.totalNodes == Some(|s.graph.nodes|)
  {
    State(SampleGraph(), NoSelection, Some(|SampleGraph().nodes|))
  }

  /** The starting graph has six nodes with distinct keys and five edges
      without self loops. */
  lemma InitialShape()
    ensures |InitialState().graph.nodes| == 6 && |InitialState().graph.edges| == 5
    ensures UniqueKeys(InitialState().graph.nodes)
    ensures NoSelfLoops(InitialState().graph.edges)
  {
  }

  /** In the starting graph every edge endpoint names a node. */
  lemma InitialConnected()
    ensures Connected(InitialState().graph)
  {
    var g := SampleGraph();
    var ns := g.nodes;
    assert ns[0].id in Keys(ns) && ns[1].id in Keys(ns) && ns[2].id in Keys(ns);
    assert ns[3].id in Keys(ns) && ns[4].id in Keys(ns) && ns[5].id in Keys(ns);
    forall e | e in g.edges
      ensures e.source in Keys(ns) && e.target in Keys(ns)
    {
      var k :| 0 <= k < |g.edges| && g.edges[k] == e;
      if k == 0 { assert e.source == ns[0].id && e.target == ns[1].id; }
      else if k == 1 { assert e.source == ns[1].id && e.target == ns[2].id; }
      else if k == 2 { assert e.source == ns[2].id && e.target == ns[3].id; }
      else if k == 3 { assert e.source == ns[3].id && e.target == ns[4].id; }
      else { assert e.source == ns[3].id && e.target == ns[5].id; }
    }
  }
}

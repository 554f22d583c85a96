/** The gesture handlers and buttons of the `Graph` component in
    src/Graph.tsx, each as a pure step from the old component state to
    the new one. `Date.now()` is the parameter `now`, `Math.random()` a
    parameter holding the choice it led to.
 */
module Handlers {
  import opened GraphModel
  import Generator

  /*
   * Helpers for "what stays the same".
   */

  /** Only the node sequence may differ. */
  predicate SameExceptNodes(s: State, r: State)
  {
    r.graph.edges == s.graph.edges && r.selected == s.selected && r.totalNodes == s.totalNodes
  }

  /** Only the edge sequence and the selection may differ. */
  predicate SameNodes(s: State, r: State)
  {
    r.graph.nodes == s.graph.nodes && r.totalNodes == s.totalNodes
  }

  /*
   * Bulk generation: `makeItLarge` and `handleChange`.
   */

  /** makeItLarge: the graph becomes the generated sample for the
      requested size; selection and requested size are kept. */
  method MakeItLarge(s: State,
                     nodeTypes: seq<NodeType>, nodePicks: seq<nat>,
                     edgeTypes: seq<EdgeType>, edgePicks: seq<nat>)
    returns (r: State)
    requires Generator.ValidPicks(nodePicks, Generator.Size(s.totalNodes), |nodeTypes|)
    requires Generator.ValidPicks(edgePicks, if Generator.Size(s.totalNodes) > 0 then Generator.Size(s.totalNodes) - 1 else 0, |edgeTypes|)
    ensures r.selected == s.selected && r.totalNodes == s.totalNodes
    ensures Generator.IsSample(r.graph, Generator.Size(s.totalNodes), nodeTypes, nodePicks, edgeTypes, edgePicks)
    ensures UniqueKeys(r.graph.nodes) && Connected(r.graph) && NoSelfLoops(r.graph.edges)
  {
    var g := Generator.GenerateSample(s.totalNodes, nodeTypes, nodePicks, edgeTypes, edgePicks);
    Generator.SampleWellFormed(g, Generator.Size(s.totalNodes), nodeTypes, nodePicks, edgeTypes, edgePicks);
    r := State(g, s.selected, s.totalNodes);
  }

  /** handleChange: store the parsed count (None for NaN), then
      regenerate the whole graph from it. */
  method HandleChange(s: State, input: Count,
                      nodeTypes: seq<NodeType>, nodePicks: seq<nat>,
                      edgeTypes: seq<EdgeType>, edgePicks: seq<nat>)
    returns (r: State)
    requires Generator.ValidPicks(nodePicks, Generator.Size(input), |nodeTypes|)
    requires Generator.ValidPicks(edgePicks, if Generator.Size(input) > 0 then Generator.Size(input) - 1 else 0, |edgeTypes|)
    ensures r.totalNodes == input && r.selected == s.selected
    ensures Generator.IsSample(r.graph, Generator.Size(input), nodeTypes, nodePicks, edgeTypes, edgePicks)
    ensures |r.graph.nodes| == (if input.Some? && input.value > 0 then input.value else 0)
    ensures |r.graph.edges| == (if input.Some? && input.value > 1 then input.value - 1 else 0)
    ensures UniqueKeys(r.graph.nodes) && Connected(r.graph) && NoSelfLoops(r.graph.edges)
  {
    r := MakeItLarge(s.(totalNodes := input), nodeTypes, nodePicks, edgeTypes, edgePicks);
  }

  /*
   * Head-of-list buttons.
   */

  /** The node the "Add Node" button creates. */
  function StartNode(now: int): Node
  {
    Node(Stamp(now), "Node A", SpecialType, None, Some(Point(0, 0)))
  }

  /** addStartNode: prepend one SPECIAL node at the origin keyed by the
      current time; the old nodes become the tail. */
  function AddStartNode(s: State, now: int): (r: State)
    ensures SameExceptNodes(s, r)
    ensures |r.graph.nodes| == |s.graph.nodes| + 1
    ensures r.graph.nodes[1..] == s.graph.nodes
    ensures r.graph.nodes[0].id == Stamp(now) && r.graph.nodes[0].ntype == SpecialType
    ensures r.graph.nodes[0].title == "Node A" && r.graph.nodes[0].pos == Some(Point(0, 0))
    ensures r.graph.nodes[0].subtype == None
    ensures Keys(r.graph.nodes) == Keys(s.graph.nodes) + {Stamp(now)}
  {
    var nodes := [StartNode(now)] + s.graph.nodes;
    assert nodes[1..] == s.graph.nodes;
    s.(graph := s.graph.(nodes := nodes))
  }

  /** deleteStartNode: drop the first node (nothing happens to an empty
      list); edges are left alone. */
  function DeleteStartNode(s: State): (r: State)
    ensures SameExceptNodes(s, r)
    ensures |s.graph.nodes| == 0 ==> r == s
    ensures |s.graph.nodes| > 0 ==> |r.graph.nodes| == |s.graph.nodes| - 1
    ensures |s.graph.nodes| > 0 ==> forall j :: 0 <= j < |r.graph.nodes| ==> r.graph.nodes[j] == s.graph.nodes[j + 1]
  {
    if |s.graph.nodes| == 0 then s
    else s.(graph := s.graph.(nodes := s.graph.nodes[1..]))
  }

  /*
   * Renderer callbacks.
   */

  /** onUpdateNode: replace the first node whose key is the updated
      node's key; on a miss the nodes are unchanged. */
  function UpdateNode(s: State, v: Node): (r: State)
    ensures SameExceptNodes(s, r)
    ensures |r.graph.nodes| == |s.graph.nodes|
    ensures v.id !in Keys(s.graph.nodes) ==> r == s
    ensures v.id in Keys(s.graph.nodes) ==>
              exists i :: 0 <= i < |s.graph.nodes| && s.graph.nodes[i].id == v.id
                          && r.graph.nodes[i] == v
                          && (forall j :: 0 <= j < i ==> s.graph.nodes[j].id != v.id)
                          && (forall j :: 0 <= j < |s.graph.nodes| && j != i ==> r.graph.nodes[j] == s.graph.nodes[j])
  {
    var i := NodeIndex(s.graph.nodes, v.id);
    if i == -1 then s
    else s.(graph := s.graph.(nodes := s.graph.nodes[i := v]))
  }

  /** onSelectNode: a node, or None for a deselect event. */
  function SelectNode(s: State, v: Option<Node>): (r: State)
    ensures r.graph == s.graph && r.totalNodes == s.totalNodes
    ensures v.None? ==> r.selected == NoSelection
    ensures v.Some? ==> r.selected == NodeSelected(v.value)
  {
    match v
    case None => s.(selected := NoSelection)
    case Some(n) => s.(selected := NodeSelected(n))
  }

  /** onSelectEdge. */
  function SelectEdge(s: State, e: Edge): (r: State)
    ensures r.graph == s.graph && r.totalNodes == s.totalNodes
    ensures r.selected == EdgeSelected(e)
  {
    s.(selected := EdgeSelected(e))
  }

  /** onCreateNode: append one untitled node at (x, y), keyed by the
      current time. `special` stands for `Math.random() < 0.25`. The
      selection is not touched. */
  function CreateNode(s: State, x: int, y: int, now: int, special: bool): (r: State)
    ensures SameExceptNodes(s, r)
    ensures |r.graph.nodes| == |s.graph.nodes| + 1
    ensures r.graph.nodes[..|s.graph.nodes|] == s.graph.nodes
    ensures var n := r.graph.nodes[|s.graph.nodes|];
            n.id == Stamp(now) && n.title == "" && n.pos == Some(Point(x, y)) && n.subtype == None
            && (n.ntype == SpecialType <==> special)
            && (n.ntype == SpecialType || n.ntype == EmptyType)
    ensures Keys(r.graph.nodes) == Keys(s.graph.nodes) + {Stamp(now)}
  {
    var t := if special then SpecialType else EmptyType;
    var nodes := s.graph.nodes + [Node(Stamp(now), "", t, None, Some(Point(x, y)))];
    assert nodes[..|s.graph.nodes|] == s.graph.nodes;
    s.(graph := s.graph.(nodes := nodes))
  }

  /** The edges that do not touch `key`, in their original order
      (the `filter` of onDeleteNode). */
  function Detach(edges: seq<Edge>, key: Key): (r: seq<Edge>)
    ensures |r| <= |edges|
    ensures forall e :: e in r ==> e in edges && !Touches(e, key)
    ensures forall e :: e in edges && !Touches(e, key) ==> e in r
  {
    if |edges| == 0 then []
    else if Touches(edges[0], key) then Detach(edges[1..], key)
    else [edges[0]] + Detach(edges[1..], key)
  }

  /** onDeleteNode: drop every edge touching the deleted node, take the
      renderer's remaining nodes `nodeArr`, clear the selection. The
      key argument `nodeId` is unused, as in the component. */
  function DeleteNode(s: State, v: Node, nodeId: Key, nodeArr: seq<Node>): (r: State)
    ensures r.graph.nodes == nodeArr
    ensures r.selected == NoSelection && r.totalNodes == s.totalNodes
    ensures forall e :: e in r.graph.edges ==> !Touches(e, v.id)
    ensures forall e :: e in s.graph.edges ==> (e in r.graph.edges <==> !Touches(e, v.id))
    ensures forall e :: e in r.graph.edges ==> e in s.graph.edges
    ensures r.graph.edges == Detach(s.graph.edges, v.id)
  {
    State(Graph(nodeArr, Detach(s.graph.edges, v.id)), NoSelection, s.totalNodes)
  }

  /** The edge onCreateEdge would add. */
  function NewEdge(src: Node, tgt: Node): Edge
  {
    Edge(src.id, tgt.id, if src.ntype == SpecialType then SpecialEdgeType else EmptyEdgeType, None, None)
  }

  /** onCreateEdge: unless both ends are the same node, append an edge
      from `src` to `tgt` (SPECIAL_EDGE exactly when `src` is SPECIAL)
      and select it; otherwise nothing changes. */
  function CreateEdge(s: State, src: Node, tgt: Node): (r: State)
    ensures SameNodes(s, r)
    ensures src.id == tgt.id ==> r == s
    ensures src.id != tgt.id ==>
              && |r.graph.edges| == |s.graph.edges| + 1
              && r.graph.edges[..|s.graph.edges|] == s.graph.edges
              && var e := r.graph.edges[|s.graph.edges|];
                 && e.source == src.id && e.target == tgt.id
                 && e.handleText == None && e.handleTooltipText == None
                 && (e.etype == SpecialEdgeType <==> src.ntype == SpecialType)
                 && r.selected == EdgeSelected(e)
  {
    var e := NewEdge(src, tgt);
    if e.source != e.target then
      var edges := s.graph.edges + [e];
      assert edges[..|s.graph.edges|] == s.graph.edges;
      State(s.graph.(edges := edges), EdgeSelected(e), s.totalNodes)
    else s
  }

  /** onSwapEdge: the first edge running from `e.source` to `e.target`
      gets `src` and `tgt` as its new ends, keeping its other fields, and
      becomes the selection. The component throws when there is no such
      edge, so its presence is required here. */
  function SwapEdge(s: State, src: Node, tgt: Node, e: Edge): (r: State)
    requires EdgeIndex(s.graph.edges, e.source, e.target) != -1
    ensures SameNodes(s, r)
    ensures |r.graph.edges| == |s.graph.edges|
    ensures exists i :: 0 <= i < |s.graph.edges|
              && s.graph.edges[i].source == e.source && s.graph.edges[i].target == e.target
              && (forall j :: 0 <= j < i ==> !(s.graph.edges[j].source == e.source && s.graph.edges[j].target == e.target))
              && r.graph.edges[i] == s.graph.edges[i].(source := src.id, target := tgt.id)
              && (forall j :: 0 <= j < |s.graph.edges| && j != i ==> r.graph.edges[j] == s.graph.edges[j])
              && r.selected == EdgeSelected(r.graph.edges[i])
  {
    var i := EdgeIndex(s.graph.edges, e.source, e.target);
    var edge := s.graph.edges[i].(source := src.id, target := tgt.id);
    State(s.graph.(edges := s.graph.edges[i := edge]), EdgeSelected(edge), s.totalNodes)
  }

  /** onDeleteEdge: take the renderer's remaining edges and clear the
      selection. */
  function DeleteEdge(s: State, e: Edge, edges: seq<Edge>): (r: State)
    ensures SameNodes(s, r)
    ensures r.graph.edges == edges && r.selected == NoSelection
  {
    State(s.graph.(edges := edges), NoSelection, s.totalNodes)
  }
}

/** Which handlers keep the graph well formed. Referential integrity
    (`Connected`: every edge endpoint names a node), distinct node keys
    and the absence of self loops are what the editor relies on; the
    lemmas below say when each handler keeps them and, for
    deleteStartNode, that it does not.
 */
module Invariants {
  import opened GraphModel
  import opened Handlers

  /*
   * Head-of-list buttons.
   */

  /** Prepending a node keeps every edge endpoint present. */
  lemma AddStartNodeKeepsConnected(s: State, now: int)
    ensures Connected(s.graph) ==> Connected(AddStartNode(s, now).graph)
  {
  }

  /** After prepending, keys stay distinct exactly when the time stamp
      is not already a key. */
  lemma AddStartNodeKeepsInvariants(s: State, now: int)
    requires UniqueKeys(s.graph.nodes)
    ensures UniqueKeys(AddStartNode(s, now).graph.nodes) <==> Stamp(now) !in Keys(s.graph.nodes)
  {
    var r := AddStartNode(s, now);
    if Stamp(now) in Keys(s.graph.nodes) {
      var j :| 0 <= j < |s.graph.nodes| && s.graph.nodes[j].id == Stamp(now);
      assert r.graph.nodes[j + 1].id == r.graph.nodes[0].id;
    }
  }

  /** With distinct keys, dropping the head removes exactly the head's key. */
  lemma KeysOfTail(nodes: seq<Node>)
    requires |nodes| > 0 && UniqueKeys(nodes)
    ensures Keys(nodes[1..]) == Keys(nodes) - {nodes[0].id}
  {
    forall k | k in Keys(nodes) && k != nodes[0].id
      ensures k in Keys(nodes[1..])
    {
      var j :| 0 <= j < |nodes| && nodes[j].id == k;
      assert nodes[1..][j - 1] == nodes[j];
    }
    forall k | k in Keys(nodes[1..])
      ensures k != nodes[0].id
    {
      var j :| 0 <= j < |nodes| - 1 && nodes[1..][j].id == k;
      assert nodes[j + 1].id == k;
    }
  }

  /** deleteStartNode keeps referential integrity exactly when no edge
      touches the removed head node: it does not cascade. */
  lemma DeleteStartNodeConnectedIff(s: State)
    requires Connected(s.graph) && UniqueKeys(s.graph.nodes) && |s.graph.nodes| > 0
    ensures Connected(DeleteStartNode(s).graph)
            <==> forall e :: e in s.graph.edges ==> !Touches(e, s.graph.nodes[0].id)
  {
    KeysOfTail(s.graph.nodes);
    assert DeleteStartNode(s).graph.nodes == s.graph.nodes[1..];
  }

  /** Pressing "delete start node" on the starting graph leaves the edge
      start1 -> a1 dangling. */
  lemma DeleteStartNodeDangles()
    ensures Connected(InitialState().graph)
    ensures !Connected(DeleteStartNode(InitialState()).graph)
  {
    InitialConnected();
    InitialShape();
    var s := InitialState();
    DeleteStartNodeConnectedIff(s);
    assert Touches(s.graph.edges[0], s.graph.nodes[0].id);
  }

  /*
   * onUpdateNode.
   */

  /** An update never changes the set of keys, so it keeps both
      referential integrity and key distinctness. */
  lemma UpdateNodeKeepsInvariants(s: State, v: Node)
    ensures Keys(UpdateNode(s, v).graph.nodes) == Keys(s.graph.nodes)
    ensures Connected(s.graph) ==> Connected(UpdateNode(s, v).graph)
    ensures UniqueKeys(s.graph.nodes) ==> UniqueKeys(UpdateNode(s, v).graph.nodes)
  {
    var r := UpdateNode(s, v);
    if v.id in Keys(s.graph.nodes) {
      var i := NodeIndex(s.graph.nodes, v.id);
      assert r.graph.nodes == s.graph.nodes[i := v];
      forall k | k in Keys(s.graph.nodes)
        ensures k in Keys(r.graph.nodes)
      {
        var j :| 0 <= j < |s.graph.nodes| && s.graph.nodes[j].id == k;
        assert r.graph.nodes[j].id == k;
      }
      forall k | k in Keys(r.graph.nodes)
        ensures k in Keys(s.graph.nodes)
      {
        var j :| 0 <= j < |r.graph.nodes| && r.graph.nodes[j].id == k;
        assert s.graph.nodes[j].id == k;
      }
    }
  }

  /** After updating a present node, looking its key up yields the
      update itself. */
  lemma UpdateNodeThenView(s: State, v: Node)
    requires v.id in Keys(s.graph.nodes)
    ensures ViewNode(UpdateNode(s, v).graph.nodes, v.id) == Some(v)
  {
    var i := NodeIndex(s.graph.nodes, v.id);
    var r := UpdateNode(s, v);
    assert r.graph.nodes == s.graph.nodes[i := v];
    assert r.graph.nodes[i] == v;
    assert forall j :: 0 <= j < i ==> r.graph.nodes[j] == s.graph.nodes[j];
  }

  /** Repeating the same update changes nothing more. */
  lemma UpdateNodeIdempotent(s: State, v: Node)
    ensures UpdateNode(UpdateNode(s, v), v) == UpdateNode(s, v)
  {
    var r := UpdateNode(s, v);
    if v.id in Keys(s.graph.nodes) {
      var i := NodeIndex(s.graph.nodes, v.id);
      assert r.graph.nodes == s.graph.nodes[i := v];
      assert NodeIndex(r.graph.nodes, v.id) == i by {
        assert r.graph.nodes[i].id == v.id;
        assert forall j :: 0 <= j < i ==> r.graph.nodes[j] == s.graph.nodes[j];
      }
    }
  }

  /*
   * onCreateNode.
   */

  /** Appending a node keeps every edge endpoint present. */
  lemma CreateNodeKeepsConnected(s: State, x: int, y: int, now: int, special: bool)
    ensures Connected(s.graph) ==> Connected(CreateNode(s, x, y, now, special).graph)
  {
  }

  /** After appending, keys stay distinct exactly when the time stamp is
      fresh, and then the new node is found by its key. */
  lemma CreateNodeKeepsInvariants(s: State, x: int, y: int, now: int, special: bool)
    requires UniqueKeys(s.graph.nodes)
    ensures UniqueKeys(CreateNode(s, x, y, now, special).graph.nodes) <==> Stamp(now) !in Keys(s.graph.nodes)
    ensures Stamp(now) !in Keys(s.graph.nodes) ==>
              ViewNode(CreateNode(s, x, y, now, special).graph.nodes, Stamp(now))
              == Some(CreateNode(s, x, y, now, special).graph.nodes[|s.graph.nodes|])
  {
    var r := CreateNode(s, x, y, now, special);
    var n := |s.graph.nodes|;
    if Stamp(now) in Keys(s.graph.nodes) {
      var j :| 0 <= j < n && s.graph.nodes[j].id == Stamp(now);
      assert r.graph.nodes[j].id == r.graph.nodes[n].id;
    } else {
      assert UniqueKeys(r.graph.nodes) by {
        forall i, j | 0 <= i < j < |r.graph.nodes|
          ensures r.graph.nodes[i].id != r.graph.nodes[j].id
        {
          if j == n {
            assert r.graph.nodes[i] == s.graph.nodes[i];
          } else {
            assert r.graph.nodes[i] == s.graph.nodes[i] && r.graph.nodes[j] == s.graph.nodes[j];
          }
        }
      }
      NodeIndexOfUnique(r.graph.nodes, n);
    }
  }

  /*
   * onDeleteNode.
   */

  /** The filter distributes over concatenation, so it keeps the kept
      edges in their original order. */
  lemma {:induction false} DetachAppend(a: seq<Edge>, b: seq<Edge>, key: Key)
    ensures Detach(a + b, key) == Detach(a, key) + Detach(b, key)
  {
    if |a| == 0 {
      assert a + b == b;
    } else {
      assert (a + b)[1..] == a[1..] + b;
      DetachAppend(a[1..], b, key);
    }
  }

  /** The filter keeps a sequence with no touching edge as it is. */
  lemma {:induction false} DetachUntouched(edges: seq<Edge>, key: Key)
    requires forall e :: e in edges ==> !Touches(e, key)
    ensures Detach(edges, key) == edges
  {
    if |edges| > 0 {
      assert edges[0] in edges;
      assert forall e :: e in edges[1..] ==> e in edges;
      DetachUntouched(edges[1..], key);
      assert [edges[0]] + edges[1..] == edges;
    }
  }

  /** Deleting a node twice removes no further edge. */
  lemma DetachIdempotent(edges: seq<Edge>, key: Key)
    ensures Detach(Detach(edges, key), key) == Detach(edges, key)
  {
    DetachUntouched(Detach(edges, key), key);
  }

  /** onDeleteNode keeps referential integrity and the absence of self
      loops, provided the renderer's `nodeArr` still holds every node
      other than the deleted one. */
  lemma DeleteNodeKeepsInvariants(s: State, v: Node, nodeId: Key, nodeArr: seq<Node>)
    requires Connected(s.graph)
    requires forall n :: n in s.graph.nodes && n.id != v.id ==> n.id in Keys(nodeArr)
    ensures Connected(DeleteNode(s, v, nodeId, nodeArr).graph)
    ensures NoSelfLoops(s.graph.edges) ==> NoSelfLoops(DeleteNode(s, v, nodeId, nodeArr).graph.edges)
  {
    var r := DeleteNode(s, v, nodeId, nodeArr);
    forall e | e in r.graph.edges
      ensures e.source in Keys(nodeArr) && e.target in Keys(nodeArr)
    {
      assert e in s.graph.edges && !Touches(e, v.id);
      var a :| a in s.graph.nodes && a.id == e.source;
      var b :| b in s.graph.nodes && b.id == e.target;
    }
  }

  /*
   * onCreateEdge, onSwapEdge, onDeleteEdge.
   */

  /** A new edge between present nodes keeps referential integrity;
      self loops are never created. */
  lemma CreateEdgeKeepsInvariants(s: State, src: Node, tgt: Node)
    requires src.id in Keys(s.graph.nodes) && tgt.id in Keys(s.graph.nodes)
    ensures Connected(s.graph) ==> Connected(CreateEdge(s, src, tgt).graph)
    ensures NoSelfLoops(s.graph.edges) ==> NoSelfLoops(CreateEdge(s, src, tgt).graph.edges)
  {
    var r := CreateEdge(s, src, tgt);
    if src.id != tgt.id {
      assert r.graph.edges == s.graph.edges + [NewEdge(src, tgt)];
    }
  }

  /** Duplicate edges are not rejected: connecting a1 to a2 in the
      starting graph, which already has that edge, adds a sixth edge. */
  lemma CreateEdgeAllowsDuplicates()
    ensures var s := InitialState();
            |CreateEdge(s, s.graph.nodes[1], s.graph.nodes[2]).graph.edges| == 6
  {
    InitialShape();
    var s := InitialState();
    assert s.graph.nodes[1].id != s.graph.nodes[2].id;
  }

  /** Re-attaching an edge to present nodes keeps referential integrity;
      it keeps the graph free of self loops exactly when the new ends
      differ, since `onSwapEdge` does not check this. */
  lemma SwapEdgeKeepsInvariants(s: State, src: Node, tgt: Node, e: Edge)
    requires EdgeIndex(s.graph.edges, e.source, e.target) != -1
    requires src.id in Keys(s.graph.nodes) && tgt.id in Keys(s.graph.nodes)
    ensures Connected(s.graph) ==> Connected(SwapEdge(s, src, tgt, e).graph)
    ensures NoSelfLoops(s.graph.edges) ==>
              (NoSelfLoops(SwapEdge(s, src, tgt, e).graph.edges) <==> src.id != tgt.id)
  {
    var i := EdgeIndex(s.graph.edges, e.source, e.target);
    var r := SwapEdge(s, src, tgt, e);
    assert r.graph.edges == s.graph.edges[i := s.graph.edges[i].(source := src.id, target := tgt.id)];
    assert r.graph.edges[i] in r.graph.edges;
    forall d | d in r.graph.edges
      ensures d == r.graph.edges[i] || d in s.graph.edges
    {
      var j :| 0 <= j < |r.graph.edges| && r.graph.edges[j] == d;
      if j != i {
        assert d == s.graph.edges[j];
      }
    }
  }

  /** Keeping only old edges keeps referential integrity and the
      absence of self loops. */
  lemma DeleteEdgeKeepsInvariants(s: State, e: Edge, edges: seq<Edge>)
    requires forall d :: d in edges ==> d in s.graph.edges
    ensures Connected(s.graph) ==> Connected(DeleteEdge(s, e, edges).graph)
    ensures NoSelfLoops(s.graph.edges) ==> NoSelfLoops(DeleteEdge(s, e, edges).graph.edges)
  {
  }
}

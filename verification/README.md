# Graph editor state, modelled in Dafny

This project models the in-memory graph editor of the demo front-end:
the `Graph` component of `src/Graph.tsx`. The component holds a graph
(a sequence of nodes and a sequence of edges), the current selection and
a requested sample size. A rendering widget reports user gestures to it
through callbacks, and each callback rewrites that state. The component
also has a sample generator that builds a grid of nodes joined by a path
of edges for stress tests.

Every handler is modelled as a pure function from the old state to the
new one. Nondeterministic inputs become parameters:

- `Date.now()` is the integer `now`.
- `Math.random()` is the choice it leads to. In `onCreateNode` this is a
  boolean `special`, which stands for `Math.random() < 0.25`. In the
  generator it is a list of indices into the node-type and edge-type
  tables, each below the table's length.

Modules:

- `Decimal` (decimal.dfy): the decimal text of a natural number, which
  is what the template literals `a${i}` and `Node ${i}` produce. It also
  has the inverse parse and the round trip between the two.
- `Lookup` (lookup.dfy): `findIndex`, a first-match linear scan that
  returns -1 when nothing matches.
- `GraphModel` (graph_model.dfy): keys, nodes, edges, selection and
  state; the lookups `getNodeIndex`, `getEdgeIndex` and `getViewNode`;
  the well-formedness predicates; the hand-authored starting graph.
- `Generator` (generator.dfy): `generateSample`, written as the two loops
  of `generateSample`. The x/y counter invariant yields the closed-form grid
  position.
- `Handlers` (handlers.dfy): `makeItLarge`, `handleChange`,
  `addStartNode`, `deleteStartNode` and the eight renderer callbacks.
- `Invariants` (invariants.dfy): for each handler, whether it keeps
  referential integrity and, where the handler adds, rewires or removes
  what they concern, distinct node keys and the absence of self loops. Referential integrity means every edge endpoint names a node.

Node keys are a datatype `Key = Text(string) | Stamp(int)`. The samples
use string keys (`'a1'`), and nodes made by gestures use the number
`Date.now()`. The key field is named `id`, which is the field the
hand-authored sample fills. The `NODE_KEY` constant and the type tables
come from a configuration module that is not part of this model. Node and
edge categories are therefore small enumerations, and the generator takes
the tables as parameters.

Behaviour of the code that a reader may not expect:

- The hand-authored starting graph has six nodes and five edges
  (src/Graph.tsx:32-110).
- `onCreateNode` does not change the selection (src/Graph.tsx:300-301).
- `makeItLarge` keeps the old selection, even when the selected node is
  no longer in the graph (src/Graph.tsx:211-213).
- `deleteStartNode` does nothing on an empty node list, because
  `splice(0, 1)` on an empty array removes nothing (src/Graph.tsx:239).
- `onSwapEdge` does not reject a self loop (src/Graph.tsx:356-358).
  `Invariants.SwapEdgeKeepsInvariants` shows that the graph stays free of
  self loops exactly when the new ends differ.

## Model

| member | source | states |
|---|---|---|
| Lookup.FindIndex | src/Graph.tsx:183-185 | returns -1 exactly when no element satisfies the predicate; otherwise it returns an index whose element satisfies it, and no earlier element does |
| GraphModel.NodeIndex | src/Graph.tsx:182-186 | getNodeIndex returns -1 exactly when the key is not among the node keys; otherwise it returns the smallest index whose node has that key |
| GraphModel.EdgeIndex | src/Graph.tsx:189-195 | getEdgeIndex returns -1 exactly when no edge has exactly that (source, target) pair; otherwise it returns the smallest index of such an edge |
| GraphModel.ViewNode | src/Graph.tsx:198-205 | getViewNode finds a node exactly when the key is present; the node found has that key, and no earlier node has it; a miss gives `undefined` (None) |
| GraphModel.NodeIndexOfUnique | src/Graph.tsx:182-186 | when keys are distinct, looking up the key of node i returns i |
| GraphModel.InitialState | src/Graph.tsx:170-176 | the constructor starts with nothing selected and a requested size equal to the starting graph's node count |
| GraphModel.InitialShape | src/Graph.tsx:32-110 | the starting graph has 6 nodes with distinct keys and 5 edges, none of them a self loop |
| GraphModel.InitialConnected | src/Graph.tsx:32-110 | every edge endpoint of the starting graph names one of its nodes |
| Decimal.Show | src/Graph.tsx:135 | the text `${i}` of a non-negative integer is a non-empty string of decimal digits with no leading zero |
| Decimal.ParseShow | src/Graph.tsx:135-136 | parsing the decimal text that `${i}` produces gives back i |
| Decimal.ShowInjective | src/Graph.tsx:135 | different counters give different decimal texts |
| Generator.NumNodes | src/Graph.tsx:120 | NaN becomes 0 and every integer is kept as it is, so the falsy 0 stays 0 |
| Generator.Size | src/Graph.tsx:120-126 | the number of generated nodes is the count when it is a positive integer, and 0 for NaN, zero or a negative count |
| Generator.GridPoint | src/Graph.tsx:117-140 | grid positions are non-negative multiples of 200, with x below 4000; counter i can be read back from its position as 20·(y/200) + x/200 |
| Generator.GenKeyInjective | src/Graph.tsx:135 | the keys `a${i}` of different counters differ |
| Generator.GenerateSample | src/Graph.tsx:112-152 | the node loop runs max(numNodes, 0) times and the edge loop max(numNodes-1, 0) times; it yields max(n,0) nodes, where node i (1-based) is `a{i}`, titled `Node {i}`, with the chosen type, at (200·(i mod 20), 200·(i div 20)); yields max(n-1,0) edges, where edge i links `a{i}` to `a{i+1}` and has the chosen type |
| Generator.SampleWellFormed | src/Graph.tsx:126-149 | a generated sample has distinct keys, every edge endpoint is a generated node, and there is no self loop |
| Handlers.MakeItLarge | src/Graph.tsx:207-214 | the graph becomes the sample for the requested size, which is well formed; the selection and the requested size are kept |
| Handlers.HandleChange | src/Graph.tsx:248-255 | stores the parsed count, keeps the selection, and the graph becomes the generated sample for that count (same nodes, positions, types and edges as `GenerateSample`); it has max(n,0) nodes and max(n-1,0) edges, so NaN or 0 gives an empty graph |
| Handlers.AddStartNode | src/Graph.tsx:216-234 | prepends exactly one SPECIAL node titled "Node A" at (0, 0), without subtype, keyed by the time; the old nodes become the tail; the key set gains only that key; edges and selection are unchanged |
| Handlers.DeleteStartNode | src/Graph.tsx:236-246 | a non-empty node list loses only its head, and the rest keep their order; an empty list gives the same state; edges are untouched |
| Handlers.UpdateNode | src/Graph.tsx:263-269 | on a hit, only the first node with the key is replaced, and the length is kept; on a miss the state is unchanged; edges and selection are never touched |
| Handlers.SelectNode | src/Graph.tsx:272-275 | the selection becomes the node, or nothing for a deselect; the graph is unchanged |
| Handlers.SelectEdge | src/Graph.tsx:278-280 | the selection becomes the edge; the graph is unchanged |
| Handlers.CreateNode | src/Graph.tsx:283-302 | appends exactly one node with an empty title and no subtype at (x, y), keyed by the time; its type is SPECIAL exactly when the random draw was below 0.25, and EMPTY otherwise; edges and selection are unchanged |
| Handlers.Detach | src/Graph.tsx:308-312 | the kept edges are exactly the old edges whose source and target both differ from the deleted node's key |
| Handlers.DeleteNode | src/Graph.tsx:305-318 | the nodes become `nodeArr`; the edges are exactly the filter `Detach` of the old edges, so every surviving edge is an old one, an old edge survives exactly when neither its source nor its target is the deleted key, and order is kept; the selection is cleared |
| Handlers.CreateEdge | src/Graph.tsx:321-344 | equal end keys leave the state unchanged; otherwise exactly one edge (source key, target key) with no label or tooltip is appended, it is SPECIAL_EDGE exactly when the source node is SPECIAL, and it is selected |
| Handlers.SwapEdge | src/Graph.tsx:347-366 | keeps the edge count; rewrites only the first edge matching the (source, target) pair, and only that edge's ends, keeping its label and tooltip; selects the rewritten edge |
| Handlers.DeleteEdge | src/Graph.tsx:369-377 | the edges become the renderer's list and the selection is cleared; nodes are unchanged |
| Invariants.AddStartNodeKeepsConnected | src/Graph.tsx:216-234 | prepending a node keeps referential integrity, for every state |
| Invariants.AddStartNodeKeepsInvariants | src/Graph.tsx:216-234 | with distinct keys before, keys stay distinct exactly when the time stamp is not already a key |
| Invariants.KeysOfTail | src/Graph.tsx:239 | when keys are distinct, removing the head removes exactly the head's key |
| Invariants.DeleteStartNodeConnectedIff | src/Graph.tsx:236-246 | deleteStartNode keeps referential integrity exactly when no edge touches the head node |
| Invariants.DeleteStartNodeDangles | src/Graph.tsx:236-246 | on the starting graph, deleteStartNode leaves the edge start1 → a1 dangling |
| Invariants.UpdateNodeKeepsInvariants | src/Graph.tsx:263-269 | an update keeps the key set, so it keeps referential integrity and distinct keys |
| Invariants.UpdateNodeThenView | src/Graph.tsx:198-205 | after updating a present node, getViewNode on its key returns the update |
| Invariants.UpdateNodeIdempotent | src/Graph.tsx:263-269 | applying the same update twice is the same as applying it once |
| Invariants.CreateNodeKeepsConnected | src/Graph.tsx:283-302 | appending a node keeps referential integrity, for every state |
| Invariants.CreateNodeKeepsInvariants | src/Graph.tsx:283-302 | with distinct keys before, keys stay distinct exactly when the time stamp is fresh, and then the new node is found by its key |
| Invariants.DetachAppend | src/Graph.tsx:308-312 | the filter distributes over concatenation, so the kept edges stay in their original order |
| Invariants.DetachUntouched | src/Graph.tsx:308-312 | when no edge touches the key, the filter keeps every edge |
| Invariants.DetachIdempotent | src/Graph.tsx:308-312 | filtering a second time removes nothing more |
| Invariants.DeleteNodeKeepsInvariants | src/Graph.tsx:305-318 | keeps referential integrity and the absence of self loops, provided `nodeArr` still holds every node other than the deleted one |
| Invariants.CreateEdgeKeepsInvariants | src/Graph.tsx:321-344 | an edge between present nodes keeps referential integrity, and no self loop is ever added |
| Invariants.CreateEdgeAllowsDuplicates | src/Graph.tsx:336-343 | a duplicate a1 → a2 edge is not rejected: the starting graph goes from five edges to six |
| Invariants.SwapEdgeKeepsInvariants | src/Graph.tsx:347-366 | re-attaching to present nodes keeps referential integrity; a graph without self loops stays so exactly when the new ends differ |
| Invariants.DeleteEdgeKeepsInvariants | src/Graph.tsx:369-377 | a remaining edge list made of old edges keeps referential integrity and the absence of self loops |

## Left out

- React plumbing is left out: `setState`, refs, `render` and the
  `GraphView` props. Each handler is a function from the old state to the
  new one. The `copiedNode` and `layoutEngineType` state fields are never
  changed, so they are not modelled.
- In-place mutation and aliasing are left out. This covers `splice`
  followed by a fresh spread, and writes into the shared graph object.
  Only the resulting sequences are modelled.
- `Math.random` and `Date.now` are parameters, as described above. The
  probabilities (1/4 for SPECIAL, uniform table picks) are not modelled.
- Handlers.UpdateNode: on a miss the component writes the property `-1` on
  the array. That does not change the element sequence, so the model
  treats it as a no-op.
- GraphModel.ViewNode: a miss is modelled as `undefined` (None). In the
  component, a missed `onUpdateNode` leaves a stray array property `-1`
  holding the updated node (src/Graph.tsx:267). It survives until the node
  array is replaced (src/Graph.tsx:211, 221, 242, 300, 314). Until then a
  missed `getViewNode` returns that stray node (src/Graph.tsx:204). The
  model does not track array properties outside the element sequence.
  `getViewNode` has no caller in the file.
- Decimal.Show: models `${i}` for every natural number. JavaScript numbers
  are doubles: `${i}` switches to exponent form from 1e21 on, and `i++`
  stops growing at 2^53. The two agree only below 1e21, far beyond any
  node count the text box can sensibly request.
- Handlers.SwapEdge: requires that the (source, target) pair is found.
  On a miss `onSwapEdge` throws inside `JSON.parse(undefined)`, and the
  model does not represent that exception. The JSON deep copy is a plain
  value copy.
- Generator.GenerateSample: requires each random pick to be an index
  below its table's length. `Math.floor(len * Math.random())` always is,
  except for an empty table, where `generateSample` would store `undefined`.
- Handlers.HandleChange: takes the count after `parseInt`. An integer or
  None (for NaN) is the input; the text parsing itself is JavaScript
  library code.
- Coordinates are integers. Canvas coordinates from the renderer are
  floating point.
- The type tables and `NODE_KEY` come from `./graph-config`, which is
  not part of this model. Node and edge categories are enumerations, and
  the key field is `id`.
- The rendering widget `react-digraph` is not part of this model. What
  it passes to `onDeleteNode` and `onDeleteEdge` is taken as given. The
  invariant lemmas state what those arguments must satisfy.
- `src/NavBar.tsx`, `src/CardSample.tsx` and `src/App.tsx` are static
  layout with no state logic, so they are not modelled.

# PCB editor core, modelled in Dafny

This project models the core of a small printed-circuit-board editor written in Java, and proves properties of the model:

- **Graph library.**
  - `ST` is a symbol table over two parallel lists.
  - `Graph` is an undirected graph. It keeps adjacency lists inside an `ST` plus an edge counter.
  - `DFO` is a depth-first visitor that applies an operation to every vertex reachable from the first vertex.
- **Board primitives.**
  - A through-hole `Pad` has a listener list, a selection flag, a name, a part, a net, a visibility flag and its ring and hole ellipses.
  - A trace `Segment` watches its two pads.
  - A `Net` keeps a graph of pads and a list of segments.
  - A `Footprint` holds a centre and pads. A `Part` owns a footprint and an outline.
- **Design area.** This is the editing surface:
  - its nets and parts, the three selection lists and the cursor state (Normal, Move, Route);
  - the trace being routed: a head pad joined to the previous pad by a provisional segment;
  - the key handlers (Ctrl, Delete, Escape) and the mouse handlers: the route press with and without a head, the selection press, the release, the Move drag and the mouse move;
  - the design-rule check: which pairs of parts, segments and pads it compares, and what each report does to the selection.

Each Java class whose fields are updated in place is a Dafny `class` with the same fields. Its methods have `modifies` frames and are proved against specification functions over values:

- `GraphState` for a graph, `Wiring` for a net, and `Layout` and `Deletion` for what the Delete key does to all nets.

What the Java code throws is modelled as a result, not as an exception escaping:

- null dereferences;
- `IndexOutOfBoundsException` and `ConcurrentModificationException`;
- `UnsupportedOperationException`.

The result type is `Outcome`: `Return(value)` or `Throw(kind)`.

Geometry that the Java code delegates to AWT is computed where it is simple and left as a parameter where it is not:

- `Ellipse2D.contains`, the hit test of a pad's ring, is computed (`InEllipse`).
- The hit test of a stroked line and grid snapping are function-valued constants of the design area, `hit` and `snap`, fixed when it is built. The model states the control flow around them.
- The overlap test of two padded outlines is the `overlaps` parameter of `RunDesignRuleCheck`.

Pads, segments, nets and parts are compared by identity, as in the Java code, which overrides no `equals`.

Modules, from the bottom up:

| module | file | models |
|---|---|---|
| `Wrappers` | wrappers.dfy | `Option` and `Outcome` |
| `Lists` | lists.dfy | the `ArrayList` operations the code uses (`remove(int)`, `remove(Object)`, `indexOf`) |
| `SymbolTables` | st.dfy | src/graph/ST.java |
| `GraphSpec`, `Graphs` | graph_spec.dfy, graph.dfy | src/graph/Graph.java: the graph as a value with its invariant, then the class |
| `DfoSpec`, `Dfo` | dfo_spec.dfy, dfo.dfy | src/graph/DFO.java: the search as functions, then the class |
| `Geometry` | geometry.dfy | points, ellipses, rectangles, quarter turns |
| `NetSpec` | net_spec.dfy | the graph side of the Net operations |
| `Pcb` | pcb.dfy | Vertex, Pad, ThPad, Segment, Net, Footprint and Part (one module, because the classes refer to each other) |
| `Board` | board.dfy | the nets of the design area taken together, and the Delete key as functions |
| `Routing` | routing.dfy | the route press with no head attached, as functions over a record of the board |
| `Trace` | trace.dfy | the route press with a head attached: removing the provisional segment, the search, and extending or ending the trace |
| `Selection` | selection.dfy | the selection press of the Normal and Move states: what it picks and what the selection lists become |
| `Dragging` | drag.dfy | the Move drag: the pad, segment and part loops and which pads they move |
| `Drc` | drc.dfy | the design-rule check: the comparisons it makes, in order, and the reports |
| `Editor` | editor.dfy | src/pcbEditor/DesignArea.java: the class and its handlers, tied to the modules above |

## Model

| member | source | states |
|---|---|---|
| SymbolTables.Lookup | src/graph/ST.java:46-54 | the value paired with the first occurrence of the key, None exactly when the key is absent |
| SymbolTables.ST.constructor | src/graph/ST.java:22-25 | a table with no keys and no values |
| SymbolTables.ST.Add | src/graph/ST.java:34-37 | appends the key and the value to the parallel lists, duplicates included |
| SymbolTables.ST.Get | src/graph/ST.java:46-54 | answers `Lookup`: the value at the first matching key, None (null) when there is none |
| SymbolTables.ST.Remove | src/graph/ST.java:62-71 | deletes the first matching key and its value and answers that value; an absent key leaves both lists as they were and answers None |
| SymbolTables.ST.Size | src/graph/ST.java:78-80 | the number of pairs |
| SymbolTables.ST.GetKeys | src/graph/ST.java:105-107 | the keys, in insertion order |
| SymbolTables.ST.GetValues | src/graph/ST.java:114-116 | the values, in insertion order |
| SymbolTables.LookupAfterAdd | src/graph/ST.java:34-54 | after `add(k, v)` a key already present keeps its value, `k` itself maps to `v` only when it was new, any other key stays absent |
| SymbolTables.LookupAfterRemove | src/graph/ST.java:46-71 | after `remove(k)` other keys answer as before, and `k` answers what its next occurrence held |
| SymbolTables.LookupBeforeRemoved | src/graph/ST.java:46-71 | a key whose first occurrence comes before the removed one keeps its value |
| SymbolTables.LookupAfterRemoved | src/graph/ST.java:46-71 | a different key whose first occurrence comes after the removed one keeps its value |
| SymbolTables.LookupRemovedAgain | src/graph/ST.java:46-71 | a removed key that occurred twice answers the value of its second occurrence |
| SymbolTables.RemovedKeyIsGone | src/graph/ST.java:62-71 | with distinct keys, a removed key is gone |
| Lists.IndexOf | src/graph/ST.java:47-51 | the first position holding the element |
| Lists.Delete | src/graph/ST.java:65-66 | `ArrayList.remove(int)`: one element shorter, the elements before the index kept, those after shifted down by one |
| Lists.DeleteMultiset | src/graph/ST.java:65-66 | removing by index removes exactly that element from the multiset |
| Lists.RemoveFirst | src/graph/Graph.java:117-118 | `ArrayList.remove(Object)`: the first occurrence deleted, or the list unchanged when the element is absent |
| Lists.RemoveFirstMultiset | src/graph/Graph.java:117-118 | removing the first occurrence takes one copy out of the multiset |
| Lists.RemoveFirstCount | src/graph/Graph.java:117-118 | the count of the removed element drops by one when present; every other count is unchanged |
| GraphSpec.Link | src/graph/Graph.java:95 | appending to one adjacency list changes only that list |
| GraphSpec.Unlink | src/graph/Graph.java:117 | removing from one adjacency list changes only that list, as `RemoveFirst` |
| GraphSpec.Isolated | src/graph/Graph.java:32-43 | the vertices in the given order, each with an empty list, and no edges |
| GraphSpec.IsolatedTake | src/graph/Graph.java:38-40 | one more turn of the constructor's loop adds the next vertex |
| GraphSpec.AddVertex | src/graph/Graph.java:50-52 | one more key with an empty list, the edge count unchanged (duplicates are not checked) |
| GraphSpec.AddEdge | src/graph/Graph.java:86-99 | succeeds exactly when both vertices exist and the edge does not; then the edge count grows by one and the edge is present both ways; otherwise the graph is unchanged |
| GraphSpec.RemoveEdge | src/graph/Graph.java:109-121 | succeeds exactly when the edge exists; then the edge count drops by one; otherwise the graph is unchanged |
| GraphSpec.RemoveVertex | src/graph/Graph.java:60-76 | an absent vertex answers false and changes nothing; the neighbour loop runs over the live list, so a self-loop that is not the last but one neighbour throws ConcurrentModification; otherwise the vertex is gone |
| GraphSpec.SelfLoopThrows | src/graph/Graph.java:67-71 | a concrete graph with a self-loop whose `removeV` throws ConcurrentModification |
| GraphSpec.EmptyIsSane | src/graph/Graph.java:20-43 | a graph of isolated vertices is well formed, symmetric and has twice as many list entries as edges |
| GraphSpec.AddVertexSane | src/graph/Graph.java:50-52 | adding a vertex keeps the graph sane |
| GraphSpec.AddEdgeSane | src/graph/Graph.java:86-99 | adding an edge keeps the graph sane |
| GraphSpec.AddEdgeCount | src/graph/Graph.java:95-96 | a successful `addE(a, b)` adds `b` to `a`'s list and `a` to `b`'s, and nothing else |
| GraphSpec.RemoveEdgeSane | src/graph/Graph.java:109-121 | removing an edge keeps the graph sane |
| GraphSpec.RemoveEdgeCount | src/graph/Graph.java:117-118 | a successful `removeE(a, b)` takes one `b` from `a`'s list and one `a` from `b`'s, and nothing else |
| GraphSpec.RemoveVertexSane | src/graph/Graph.java:60-76 | `removeV` throws exactly for a present vertex whose self-loop is not the last but one neighbour; on success the graph stays sane, no list mentions the vertex, and the edge count drops by its degree (a self-loop counted once) |
| GraphSpec.RemoveVertexIsRemoval | src/graph/Graph.java:60-76 | the live loop of `removeV` equals detaching the neighbours it visits and deleting the key |
| GraphSpec.RemovalSane | src/graph/Graph.java:60-76 | removing a vertex whose neighbours are all visited keeps the graph sane and forgets the vertex everywhere |
| GraphSpec.RemovalSym | src/graph/Graph.java:60-76 | after a removal, edge multiplicities stay symmetric |
| Graphs.VertexList.Add | src/graph/Graph.java:95 | appends to the adjacency list |
| Graphs.VertexList.Remove | src/graph/Graph.java:117 | removes the first occurrence from the adjacency list |
| Graphs.Graph.constructor | src/graph/Graph.java:20-25 | an empty graph |
| Graphs.Graph.FromVertices | src/graph/Graph.java:32-43 | the given vertices, isolated, as `Isolated` |
| Graphs.Graph.AddV | src/graph/Graph.java:50-52 | the state becomes `AddVertex` of the old state |
| Graphs.Graph.ContainsV | src/graph/Graph.java:129-136 | true exactly when the vertex is a key |
| Graphs.Graph.ContainsE | src/graph/Graph.java:145-162 | true exactly when both vertices exist and the second is in the first's list |
| Graphs.Graph.GetAdj | src/graph/Graph.java:188-190 | the live list of a present vertex, None (null) for an absent one |
| Graphs.Graph.AddE | src/graph/Graph.java:86-99 | state and answer as `AddEdge` |
| Graphs.Graph.RemoveE | src/graph/Graph.java:109-121 | state and answer as `RemoveEdge` |
| Graphs.Graph.RemoveV | src/graph/Graph.java:60-76 | state and answer (or ConcurrentModification) as `RemoveVertex` |
| Graphs.Graph.Walk | src/graph/Graph.java:67-71 | the neighbour loop over the live list, as `Sweep` |
| Graphs.Graph.GetV | src/graph/Graph.java:169-171 | the number of keys |
| Graphs.Graph.GetE | src/graph/Graph.java:178-180 | the edge counter |
| Graphs.Graph.GetVertices | src/graph/Graph.java:196-198 | the keys |
| DfoSpec.Traverse | src/graph/DFO.java:22-31 | a run on an empty graph throws IndexOutOfBounds (`get(0)`); otherwise every vertex starts unmarked and the search starts at the first vertex |
| DfoSpec.Visit | src/graph/DFO.java:40-53 | `dfs` marks the vertex, performs the operation, and visits each unmarked neighbour in list order |
| DfoSpec.RunVisitsReachable | src/graph/DFO.java:22-53 | the operation runs first on the first vertex, at most once per vertex, and on exactly the vertices reachable from it |
| DfoSpec.TraverseCount | src/graph/DFO.java:22-53 | with distinct keys, each vertex is operated on once if reachable and never otherwise |
| DfoSpec.SearchFromScratch | src/graph/DFO.java:40-53 | from a fresh table, `dfs(a)` operates on exactly the vertices reachable from `a`, `a` first and none twice |
| DfoSpec.VisitAllSound | src/graph/DFO.java:46-52 | every vertex newly marked by the neighbour loop is reachable from the root |
| DfoSpec.VisitAllComplete | src/graph/DFO.java:46-52 | every neighbour of a vertex the loop marked is marked too |
| DfoSpec.MarkLookup | src/graph/DFO.java:42-43 | marking a vertex (remove, then add with true) marks it and leaves every other mark alone |
| Dfo.DFO.constructor | src/graph/DFO.java:15-17 | the graph is kept and nothing has been operated on |
| Dfo.DFO.Run | src/graph/DFO.java:22-31 | throws IndexOutOfBounds exactly for an empty graph; otherwise the log of operations and the marks are `Traverse`'s, and the graph is unchanged |
| Dfo.DFO.MarkVisited | src/graph/DFO.java:42-45 | the mark and the log step of `Mark` |
| Dfo.DFO.Dfs | src/graph/DFO.java:40-53 | the search state becomes `Visit` of the old one |
| Geometry.Circle | src/pcbPrimitives/ThPad.java:37-41 | the ellipse of a ring or hole of diameter `d` centred on `c` |
| Geometry.InCircle | src/pcbPrimitives/ThPad.java:122-124 | a point is inside a circle exactly when it is nearer the centre than half the diameter |
| Geometry.Midpoint | src/pcbPrimitives/Segment.java:180-183 | the point halfway between the two ends |
| Geometry.MidpointShifted | src/pcbPrimitives/Segment.java:125-128 | moving both ends by `d` moves the midpoint by `d` |
| Geometry.ShiftBy | src/pcbPrimitives/ThPad.java:137-141 | translating an ellipse `n` times by `d` moves its corner by `n` times `d` |
| Geometry.InRectShifted | src/pcbPart/Part.java:244-253 | a shifted rectangle holds the shifted point exactly when the rectangle holds the point |
| Geometry.QuarterTurn | src/pcbPart/Part.java:129-145 | the offsets of `rot90` turn a point a quarter turn about the centre, clockwise or not |
| Geometry.TurnBack | src/pcbPart/Part.java:129-145 | a quarter turn one way undone by a quarter turn the other way |
| Geometry.FourTurns | src/pcbPart/Part.java:129-145 | four quarter turns the same way bring a point back |
| Geometry.TurnKeepsDistance | src/pcbPart/Part.java:129-145 | a quarter turn keeps the distance to the centre |
| Geometry.TurnsBack | src/pcbPart/Part.java:129-145 | `n` turns one way undone by `n` turns the other way |
| Pcb.Pad.constructor | src/pcbPrimitives/ThPad.java:34-45 | ring and hole are circles of the given diameters about `p`, with the given visibility; no listeners, name, part or net, unselected |
| Pcb.Pad.AddListener | src/graphPrimitives/Vertex.java:27-29 | appends the listener |
| Pcb.Pad.RemoveListener | src/graphPrimitives/Vertex.java:36-38 | removes the first occurrence and answers whether there was one |
| Pcb.Pad.GetListeners | src/graphPrimitives/Vertex.java:44-46 | the listeners |
| Pcb.Pad.SetSelected | src/graphPrimitives/Vertex.java:49-51 | the selection flag is set |
| Pcb.Pad.SetName | src/pcbPrimitives/Pad.java:21-23 | the name is set |
| Pcb.Pad.GetName | src/pcbPrimitives/Pad.java:29-31 | the name, None when never set |
| Pcb.Pad.SetPart | src/pcbPrimitives/Pad.java:37-39 | the part is set |
| Pcb.Pad.SetVisible | src/pcbPrimitives/ThPad.java:70-72 | the visibility is set |
| Pcb.Pad.SetNet | src/pcbPrimitives/ThPad.java:97-99 | the net is set |
| Pcb.Pad.SetRingDiam | src/pcbPrimitives/ThPad.java:51-54 | the ring becomes a circle of the given diameter about the construction point |
| Pcb.Pad.SetHoleDiam | src/pcbPrimitives/ThPad.java:60-63 | the hole becomes a circle of the given diameter about the construction point |
| Pcb.Pad.Translate | src/pcbPrimitives/ThPad.java:137-146 | ring and hole move by `delta`, so does the centre, and every listening segment's line then joins its pads' centres |
| Pcb.Pad.SetP | src/pcbPrimitives/ThPad.java:158-167 | ring and hole are re-centred on `q` by their heights, so a round pad's centre becomes `q`; the listeners are notified |
| Pcb.Pad.UnderlyingAt | src/pcbPrimitives/ThPad.java:170-176 | this pad exactly when its ring holds the point, else None |
| Pcb.Pad.Clone | src/pcbPrimitives/ThPad.java:179-182 | a new pad at the same centre with circles of the ring's and hole's heights and the same visibility, and nothing else carried over |
| Pcb.PaddedOutlineOffCentre | src/pcbPrimitives/ThPad.java:185-188 | the padded outline keeps the ring's corner, so its centre sits `padding` off the pad's centre on both axes |
| Pcb.Segment.constructor | src/pcbPrimitives/Segment.java:39-52 | registers itself on both pads (twice on one pad for a loop), keeps the pads and width, and its line joins their centres |
| Pcb.Segment.SetNet | src/pcbPrimitives/Segment.java:58-60 | the net is set |
| Pcb.Segment.SetWidth | src/pcbPrimitives/Segment.java:88-90 | the width is set |
| Pcb.Segment.SetSelected | src/pcbPrimitives/Segment.java:93-95 | the selection flag is set |
| Pcb.Segment.StateChanged | src/pcbPrimitives/Segment.java:151-153 | the line joins the pads' current centres |
| Pcb.Segment.Translate | src/pcbPrimitives/Segment.java:125-128 | both pads move by `delta` (one pad twice for a loop) and the midpoint follows |
| Pcb.Segment.SetP | src/pcbPrimitives/Segment.java:186-188 | always throws UnsupportedOperation |
| Pcb.Segment.UnderlyingAt | src/pcbPrimitives/Segment.java:156-162 | this segment exactly when its stroked line holds the point, else None |
| Pcb.Ends | src/pcbEditor/Net.java:136-138 | the pad pair of each segment, in order |
| Pcb.FirstPad | src/pcbEditor/Net.java:315-320 | the first pad whose ring holds the point, None exactly when none does |
| Pcb.FirstSeg | src/pcbEditor/Net.java:322-327 | the first segment whose stroked line holds the point, None exactly when none does |
| Pcb.ListenerLeak | src/pcbEditor/Net.java:118-120 | `addSegment` registers the new segment twice on each pad (once by the constructor, once more by the net), and `removeSegment` takes one copy off, so a copy per pad is left behind |
| Pcb.Snip | src/pcbEditor/Net.java:153-178 | `removeSegment(seg)` on values: only the segment's records change, a missing net throws NullPointer, no segment is added |
| Pcb.Between | src/pcbEditor/Net.java:135-145 | `removeSegment(p0, p1)` on values: the first segment joining the pads either way is removed |
| Pcb.BetweenMatched | src/pcbEditor/Net.java:135-145 | in a consistent net, `removeSegment(p0, p1)` answers whether a segment joins the pads, deletes the first such segment, and keeps graph and list in step |
| Pcb.Cut | src/pcbEditor/Net.java:210-213 | the loop of `removePad` over a copy of the neighbour list, stopping at a throw; on success it answers true |
| Pcb.CutMatched | src/pcbEditor/Net.java:210-213 | in a consistent net the loop succeeds and leaves no segment or edge at the pad |
| Pcb.Unplug | src/pcbEditor/Net.java:205-217 | `removePad` on values: false exactly for a pad outside the graph, which changes nothing |
| Pcb.UnplugMatched | src/pcbEditor/Net.java:205-217 | in a consistent net, `removePad` answers whether the pad was a vertex and leaves no segment, and no list, that mentions it |
| Pcb.UnhookTies | src/pcbEditor/Net.java:162-164 | unhooking a segment takes off a pad's list one copy of it for each end at that pad, and nothing else |
| Pcb.UnhookAllTies | src/pcbEditor/Net.java:210-213 | unhooking several segments in turn takes off each pad's list exactly the copies `Ties` counts |
| Pcb.UnhookAllAppend | src/pcbEditor/Net.java:211-213 | unhooking `a` and then `b` is unhooking `a + b` |
| Pcb.FreeingDropped | src/pcbEditor/Net.java:135-178 | a `removeSegment(a, b)` that does not throw unhooks exactly the segment it drops from the list |
| Pcb.FreedDropped | src/pcbEditor/Net.java:210-213 | a loop of `removePad` that does not throw unhooks exactly the segments it drops from the list |
| Pcb.FreedHooks | src/pcbEditor/Net.java:211-213 | one turn of the loop: unhooking what the first removal frees and then what the rest frees is unhooking all `Freed` names; a throw ends it with that removal |
| Pcb.UnplugReleases | src/pcbEditor/Net.java:205-217 | a `removePad` that answers true unhooks exactly the segments it drops from the net, and takes off each pad's list one copy of each for every end at that pad |
| Pcb.SnipMatched | src/pcbEditor/Net.java:153-178 | in a consistent net, removing a segment of its own succeeds, deletes it from the list and keeps graph and list in step |
| Pcb.AddMatched | src/pcbEditor/Net.java:100-124 | adding a segment keeps graph and list in step exactly when the ends differ, are not already joined, and the second end is not the only one in the graph |
| Pcb.Net.constructor | src/pcbEditor/Net.java:45-49 | an empty graph, no segments, the name, unselected |
| Pcb.Net.WithPads | src/pcbEditor/Net.java:29-38 | the pads as isolated vertices, each pad's net set to the new net |
| Pcb.Net.GetName | src/pcbEditor/Net.java:56-58 | the name |
| Pcb.Net.SetName | src/pcbEditor/Net.java:65-67 | the name is set |
| Pcb.Net.SetSelected | src/pcbEditor/Net.java:229-231 | the selection flag is set |
| Pcb.Net.GetSegments | src/pcbEditor/Net.java:185-187 | the segments |
| Pcb.Net.GetPads | src/pcbEditor/Net.java:224-226 | the vertices of the graph |
| Pcb.Net.AddPad | src/pcbEditor/Net.java:194-197 | the pad's net becomes this one and it is added as a vertex |
| Pcb.Net.AddSegment | src/pcbEditor/Net.java:78-126 | a pad without a net adopts this one first; a null `p0` net throws NullPointer; true exactly when both pads then belong here, and then the missing vertices (as the code adds them) and the edge are added, and a new segment of this net is appended and registered twice on each pad; false changes no graph, list or listener |
| Pcb.Net.Claim | src/pcbEditor/Net.java:80-96 | the net adoption and check at the start of `addSegment` |
| Pcb.Net.RemoveSegment | src/pcbEditor/Net.java:153-178 | state and answer as `Unwire`: false when the edge is missing or the segment belongs elsewhere; otherwise the segment is unhooked from its ends' listener lists as `Unhook` says (every other pad keeps its list), invisible ends left without neighbours are removed, and the segment leaves the list |
| Pcb.Net.RemoveSegmentBetween | src/pcbEditor/Net.java:135-145 | state and answer as `Between`; the listener lists of the pads become those with the segment `Freeing` names unhooked, and no other list changes |
| Pcb.Net.Unregister | src/pcbEditor/Net.java:162-164 | the segment leaves one copy on each end's list, two on the one pad of a loop, as `Unhook` says; every other pad keeps its list |
| Pcb.Net.Locate | src/pcbEditor/Net.java:136-142 | the index of the first segment joining the pads either way |
| Pcb.Net.Contains | src/pcbEditor/Net.java:282-298 | true exactly when a segment or a vertex pad holds the point |
| Pcb.Net.UnderlyingAt | src/pcbEditor/Net.java:313-332 | the first vertex pad holding the point, else the first segment holding it, else None |
| Pcb.Net.PaddedOutline | src/pcbEditor/Net.java:335-337 | always throws UnsupportedOperation |
| Pcb.Net.GetP | src/pcbEditor/Net.java:340-342 | always throws UnsupportedOperation |
| Pcb.Net.SetP | src/pcbEditor/Net.java:345-347 | always throws UnsupportedOperation |
| Pcb.Net.Translate | src/pcbEditor/Net.java:269-279 | an empty graph throws IndexOutOfBounds and moves nothing; otherwise exactly the pads reachable from the first vertex move by `delta`, as `Translated`; the line of every hooked segment watching a moved pad then joins its pads' centres |
| Pcb.TranslateReach | src/pcbEditor/Net.java:269-279 | after `translate`, a pad has moved by `delta` exactly when it is reachable from the first vertex |
| Pcb.Net.RemovePad | src/pcbEditor/Net.java:205-217 | state and answer as `Unplug`; on success the pad's net is cleared; the listener lists of the net's pads become those with the segments `UnplugFreed` names unhooked in turn, up to and including the removal that throws, if one does |
| Pcb.TurnedBack | src/pcbPart/Part.java:129-145 | rotating a footprint one way and then the other restores every pad |
| Pcb.TurnedOnce | src/pcbPart/Part.java:129-145 | with distinct pads, `rot90` turns each pad's centre a quarter turn about the footprint centre and leaves other pads alone |
| Pcb.MovesDistinct | src/pcbPart/Footprint.java:73-81 | with distinct pads, translating moves each listed pad once and no other |
| Pcb.Box | src/pcbPart/Part.java:59-63 | the rectangle of the given size centred on `c` |
| Pcb.Footprint.constructor | src/pcbPart/Footprint.java:27-35 | keeps the centre and the pads; the loop adding the centre works on copies and moves nothing |
| Pcb.Footprint.SetSelected | src/pcbPart/Footprint.java:46-51 | the footprint and every pad get the flag |
| Pcb.Footprint.Translate | src/pcbPart/Footprint.java:73-81 | the centre moves by `delta` and every pad moves once per occurrence; the line of every hooked segment watching a moved pad then joins its pads' centres |
| Pcb.Footprint.SetP | src/pcbPart/Footprint.java:130-133 | the centre becomes `q` and the pads move by the same offset; the line of every hooked segment watching a moved pad then joins its pads' centres |
| Pcb.Footprint.Contains | src/pcbPart/Footprint.java:84-92 | true exactly when some pad holds the point |
| Pcb.Footprint.UnderlyingAt | src/pcbPart/Footprint.java:95-103 | the first pad holding the point, else None |
| Pcb.Footprint.PaddedOutline | src/pcbPart/Footprint.java:120-122 | always throws UnsupportedOperation |
| Pcb.Part.constructor | src/pcbPart/Part.java:47-67 | every footprint pad's part is the new part, and the outline is the box of the given size about the footprint centre |
| Pcb.Part.Rot90 | src/pcbPart/Part.java:129-156 | each pad is turned a quarter turn about the footprint centre, and the outline is re-centred with width and height swapped |
| Pcb.Part.SetSelected | src/pcbPart/Part.java:210-213 | the part, its footprint and every pad get the flag |
| Pcb.Part.Translate | src/pcbPart/Part.java:244-248 | outline, centre and pads move by `delta`, and the part holds the moved point exactly when it held the point; the line of every hooked segment watching a moved pad then joins its pads' centres |
| Pcb.Part.SetP | src/pcbPart/Part.java:292-295 | the footprint centre becomes `q`, the pads and outline follow; the line of every hooked segment watching a moved pad then joins its pads' centres |
| Pcb.Part.UnderlyingAt | src/pcbPart/Part.java:256-258 | the first footprint pad holding the point, else None |
| Pcb.Part.PaddedOutline | src/pcbPart/Part.java:271-279 | the outline rectangle, stroked |
| Pcb.Part.Clone | src/pcbPart/Part.java:298-313 | a new part with the same id, name, size and centre, whose footprint holds fresh clones of the pads, each with its original's centre, ring and hole diameters and visibility, belonging to the new part and to no net |
| NetSpec.Admit | src/pcbEditor/Net.java:98-110 | the vertex step of `addSegment`: `p1` is always present afterwards, `p0` is added only when neither was present, and no vertex is lost (the second branch adds `p1` again, as the code does) |
| NetSpec.Connect | src/pcbEditor/Net.java:98-113 | the graph change of a successful `addSegment`: the vertex step, then `addE` |
| NetSpec.Find | src/pcbEditor/Net.java:136-142 | the first segment joining the two pads in either direction, None exactly when there is none |
| NetSpec.ConnectMatched | src/pcbEditor/Net.java:98-124 | adding a segment keeps the graph in step with the segment list exactly when the ends differ, are not yet joined, and `p1` is not present without `p0` (otherwise `addE` refuses, or the code's second branch adds `p1` twice, while the segment is still appended) |
| NetSpec.AdmitMatched | src/pcbEditor/Net.java:98-110 | adding vertices keeps the graph in step with the segments |
| NetSpec.RemoveEdgeMatched | src/pcbEditor/Net.java:158 | removing the edge of a listed segment succeeds and keeps the graph in step with the list less that segment |
| NetSpec.Prune | src/pcbEditor/Net.java:167-174 | an invisible pad left without neighbours is removed from the graph; an invisible pad that is not a vertex throws NullPointer (`getAdj` answers null); a visible pad changes nothing |
| NetSpec.PruneMatched | src/pcbEditor/Net.java:167-174 | removing an invisible isolated pad keeps the graph in step with the segments |
| NetSpec.Unwire | src/pcbEditor/Net.java:153-178 | `removeSegment(seg)` on the graph: false with no change when the edge is missing; the edge removal happens before the net check, so a segment of no net throws NullPointer and a segment of another net answers false, both after the edge is gone |
| NetSpec.UnwireOwned | src/pcbEditor/Net.java:153-178 | for a segment of this net, `removeSegment` answers true and its graph is the edge removal followed by the two prunes |
| NetSpec.UnwireMatched | src/pcbEditor/Net.java:153-178 | removing a listed segment of this net succeeds and keeps the graph in step with the list less that segment |
| NetSpec.NeighbourFound | src/pcbEditor/Net.java:210-213 | every neighbour of a pad in a consistent net is joined to it by a listed segment, so each `removeSegment(pad, n)` of `removePad` finds one |
| NetSpec.IsolatedRemoval | src/pcbEditor/Net.java:214 | removing a vertex with no neighbours succeeds and keeps the graph in step with the segments |
| Board.OthersStay | src/pcbEditor/Net.java:78-178 | a call on one net leaves every other net's graph and segments as they were, and all nets consistent when that one is |
| Board.Claimed | src/pcbEditor/Net.java:80-95 | `addSegment` throws exactly when `p0` has no net, and accepts exactly when `p0` is of this net and `p1` of none or this net |
| Board.AddIn | src/pcbEditor/Net.java:78-126 | `addSegment` on one net of the area: its answer and pad adoption as `Claimed` says, a new segment and `Connect`ed graph on true, nothing else on false, every other net unchanged |
| Board.Unlinked | src/pcbEditor/Net.java:135-145 | `removeSegment(a, b)` changes the net's graph and segments as `Between` says |
| Board.SegmentBetween | src/pcbEditor/Net.java:135-145 | `removeSegment(a, b)` changes no net reference of a pad or segment and no other net |
| Board.RemoveBetween | src/pcbEditor/Net.java:135-145 | `removeSegment(a, b)` on one net of the area as `Between` says; every other net keeps its wiring and all stay consistent |
| Board.HeadOut | src/pcbEditor/DesignArea.java:498 | dropping the head's provisional segment: a throw is a null-pointer throw, only the head's net changes, and its graph stays sane |
| Board.Mark | src/pcbEditor/Net.java:229-231 | `setSelected` sets the net's flag and changes no wiring |
| Board.PadUnplug | src/pcbEditor/Net.java:205-217 | `removePad(pad)` changes the net as `Unplug` says and takes the pad's net away exactly when it answers true |
| Board.PadApart | src/pcbEditor/Net.java:205-217 | `removePad` changes no other net |
| Board.PadOut | src/pcbEditor/Net.java:205-217 | `removePad` changes no other pad's net and no visibility |
| Board.PadIn | src/pcbEditor/Net.java:205-217 | `removePad` on one net of the area as `Unplug` says; the other nets keep their wirings and the net keeps only segments it had |
| Board.Unwired | src/pcbEditor/Net.java:153-178 | `removeSegment(seg)` changes the graph as `Unwire` says and removes the first occurrence of `seg` exactly when it answers true |
| Board.UnwiredApart | src/pcbEditor/Net.java:153-178 | `removeSegment(seg)` changes no other net |
| Board.SegmentOut | src/pcbEditor/Net.java:153-178 | `removeSegment(seg)` changes no net reference and no visibility |
| Board.SegmentIn | src/pcbEditor/Net.java:153-178 | `removeSegment(seg)` on one net of the area as `Unwire` says; the other nets keep their wirings |
| Board.DropPad | src/pcbEditor/DesignArea.java:477-479 | `pad.getNet().removePad(pad)`: a null-pointer throw for a pad without a net, otherwise `Unplug` on its net; the layout stays homed and sane |
| Board.DropPads | src/pcbEditor/DesignArea.java:477-480 | the first Delete loop: `DropPad` for each selected pad in order, stopping at the first throw |
| Board.DropSeg | src/pcbEditor/DesignArea.java:481-483 | `seg.getNet().removeSegment(seg)`: a null-pointer throw for a segment without a net, otherwise `Snip` on its net |
| Board.DropSegs | src/pcbEditor/DesignArea.java:481-484 | the second Delete loop: `DropSeg` for each selected segment in order, stopping at the first throw |
| Board.DropFootprint | src/pcbEditor/DesignArea.java:487-492 | `removePad` for each footprint pad that has a net, skipping the others, stopping at the first throw |
| Board.DropParts | src/pcbEditor/DesignArea.java:485-495 | the third Delete loop: the footprint pads of each selected part, then `parts.remove(part)` |
| Board.PadStep | src/pcbEditor/DesignArea.java:477-479 | one turn of the first Delete loop on the objects does what `DropPad` says, and the nets still spell the layout |
| Board.SegStep | src/pcbEditor/DesignArea.java:481-483 | one turn of the second Delete loop on the objects does what `DropSeg` says |
| Board.DropPadsAt | src/pcbEditor/DesignArea.java:477-480 | `DropPads` from the i-th pad is one `DropPad` followed by the rest |
| Board.PadsOut | src/pcbEditor/DesignArea.java:477-480 | the first Delete loop on the objects ends as `DropPads` says |
| Board.DropSegsAt | src/pcbEditor/DesignArea.java:481-484 | `DropSegs` from the i-th segment is one `DropSeg` followed by the rest |
| Board.SegsOut | src/pcbEditor/DesignArea.java:481-484 | the second Delete loop on the objects ends as `DropSegs` says |
| Board.DropFootprintAt | src/pcbEditor/DesignArea.java:487-492 | `DropFootprint` from the i-th pad skips a pad without a net and otherwise is one `DropPad` followed by the rest |
| Board.FootprintOut | src/pcbEditor/DesignArea.java:487-492 | the pad loop of one selected part on the objects ends as `DropFootprint` says |
| Board.DropPartsAt | src/pcbEditor/DesignArea.java:485-495 | `DropParts` from the i-th part is its footprint then the removal from `parts`, then the rest |
| Board.PartsOut | src/pcbEditor/DesignArea.java:485-495 | the third Delete loop on the objects ends as `DropParts` says |
| Board.DeletedRest | src/pcbEditor/DesignArea.java:481-496 | the Delete key after the pads: at least the pad list is cleared, it goes through exactly when all three are, and `parts` only shrinks |
| Board.Deleted | src/pcbEditor/DesignArea.java:476-496 | the Delete key: the three loops in order, each list cleared once its loop is through, a throw ending it all; it goes through exactly when all three lists are cleared |
| Board.EraseRest | src/pcbEditor/DesignArea.java:481-496 | the second and third loops on the objects end as `DeletedRest` says |
| Board.Erase | src/pcbEditor/DesignArea.java:476-496 | the three Delete loops on the objects end as `Deleted` says |
| Board.DropPadFrees | src/pcbEditor/Net.java:205-217 | a pad its net's graph holds loses its net when `removePad` goes through; a pad the graph does not hold changes nothing |
| Board.DropPadsKeep | src/pcbEditor/DesignArea.java:477-480 | the first Delete loop takes nets away only from the selected pads |
| Board.DropPartsGone | src/pcbEditor/DesignArea.java:485-495 | from a part list without repeats, the third loop removes exactly the selected parts when it goes through, and keeps a repeat-free sub-list otherwise |
| Board.DeletedParts | src/pcbEditor/DesignArea.java:476-496 | a Delete key that goes through leaves exactly the unselected parts |
| Board.DeletedNothing | src/pcbEditor/DesignArea.java:476-496 | the Delete key with nothing selected changes nothing |
| Board.DropPartsWithin | src/pcbEditor/DesignArea.java:485-495 | the third loop only removes parts |
| Editor.DesignArea.constructor | src/pcbEditor/DesignArea.java:80-96 | no parts, no nets, nothing selected, no head, the Normal cursor, Ctrl up, the default settings 0.254, 1.5, 0.8 and 0.254, and a consistent area |
| Editor.DesignArea.PlacePart | src/pcbEditor/DesignArea.java:185-192 | in the Normal state the part is appended and becomes the part following the mouse; in any other state nothing changes |
| Editor.DesignArea.KeyReleased | src/pcbEditor/DesignArea.java:512-516 | releasing Ctrl clears its flag; any other key leaves it |
| Editor.DesignArea.DropHead | src/pcbEditor/DesignArea.java:163 | `currPad.getNet().removeSegment(prevPad, currPad)`: a null-pointer throw when the head has no net, otherwise the nets change as `HeadOut` says, and the area stays consistent |
| Editor.DesignArea.Settle | src/pcbEditor/DesignArea.java:164-168 | storing the attachment flag and the state changes no wiring and keeps the area consistent |
| Editor.DesignArea.SetCursorState | src/pcbEditor/DesignArea.java:157-169 | choosing Route with a head attached drops the head's provisional segment (as `HeadOut` says), throwing when the head has no net; the state is stored and the head detached unless that drop throws, and a throw leaves the state and the flag as they were; in every other case the state is stored, the wiring is unchanged and leaving Route keeps the head attached |
| Editor.DesignArea.MarkNet | src/pcbEditor/DesignArea.java:499 | selecting or unselecting a net changes no wiring |
| Editor.DesignArea.Forget | src/pcbEditor/DesignArea.java:500-502 | the trace's pads are nulled and the head detached |
| Editor.DesignArea.Finish | src/pcbEditor/DesignArea.java:499-502 | the net is unselected, the trace's pads nulled and the head detached |
| Editor.DesignArea.Abort | src/pcbEditor/DesignArea.java:498-502 | the provisional segment is dropped as `HeadOut` says, then the net is unselected and the trace forgotten; a throw changes no field of the area |
| Editor.DesignArea.Escape | src/pcbEditor/DesignArea.java:497-505 | only with a head attached in the Route state is the route aborted (`Abort`); otherwise nothing changes |
| Editor.DesignArea.Wipe | src/pcbEditor/DesignArea.java:480-495 | the selection lists the Delete loops got through are emptied and the part list replaced |
| Editor.DesignArea.Landed | src/pcbEditor/DesignArea.java:476-496 | nets that spell a homed layout holding the net of every reached pad make the heads and the remaining parts owned |
| Editor.DesignArea.Prepared | src/pcbEditor/DesignArea.java:476-496 | a consistent area spells the layout the Delete loops start from, and every selected pad, segment and part pad is on record |
| Editor.DesignArea.Delete | src/pcbEditor/DesignArea.java:476-496 | the Delete key ends as `Deleted` says: outcome, wirings, part list and which selection lists are emptied; when it goes through, all three are empty and the area is consistent |
| Editor.DesignArea.KeyPressed | src/pcbEditor/DesignArea.java:468-508 | Ctrl sets its flag, Delete runs `Delete`, Escape runs `Escape`, and any other key changes nothing |
| Pcb.TranslateEach | src/pcbPart/Footprint.java:78-80 | `pad.translate(delta)` on each pad in turn: every pad moves once per listing, as `Moves` says, and each listening segment's line then joins its pads' centres |
| Pcb.TranslateWithin | src/pcbPart/Footprint.java:78-80 | the same loop seen from any collection holding the pads: the pads outside the loop stay where they were |
| Routing.Under | src/pcbEditor/Net.java:313-320 | the pad a route press starts from is a vertex of the net whose ring holds the point; there is none exactly when no vertex's ring holds it |
| Routing.Pressing | src/pcbEditor/DesignArea.java:565-566 | the record a route press takes before its loop: the wirings and selected flags of the nets, and the net and ring of every vertex |
| Routing.PressingMirror | src/pcbEditor/DesignArea.java:565-566 | before the first net is asked, the record covers every vertex and the board is as the record says |
| Routing.RoutedSnoc | src/pcbEditor/DesignArea.java:566-578 | one more net asked is one more `Asked` turn, unless a throw has already ended the loop |
| Routing.RoutedLater | src/pcbEditor/DesignArea.java:566-578 | the nets not asked yet keep their wiring; before a throw every pad keeps its net; the head, once made, is in one of the nets |
| Routing.TurnThrows | src/pcbEditor/DesignArea.java:570-573 | at a pad with no net, `addSegment` gives the pad the net and then throws a null pointer: the head hangs from the pad but is not attached |
| Routing.TurnSelects | src/pcbEditor/DesignArea.java:570-575 | at a pad with a net, the net is selected and the head attached; the net gains a segment from the pad to the head only when the pad is its own |
| Routing.PadsKept | src/pcbEditor/DesignArea.java:566-578 | after a route press every pad keeps its net or has one of the nets |
| Routing.CursorAfter | src/pcbEditor/DesignArea.java:566-578 | after a route press the cursor is unchanged, or a head hangs from a start pad and is in one of the nets |
| Routing.OfferNow | src/pcbEditor/DesignArea.java:567-569 | when the loop reaches a net, the live search of that net finds exactly the pad the record offers |
| Routing.FlagsAfter | src/pcbEditor/Net.java:229-231 | selecting or unselecting one net changes that net's flag and no other |
| Routing.Blank | src/pcbEditor/DesignArea.java:571-572 | the head cloned from the pad is a new invisible pad with the pad's centre and no net |
| Routing.Attach | src/pcbEditor/DesignArea.java:573-574 | `addSegment` on the i-th net and, unless it threw, `setSelected(true)`: that net changes as `AddedTo` says and every other net keeps its wiring and flag |
| Routing.TurnAsked | src/pcbEditor/DesignArea.java:570-575 | the turn of a net that offers a pad leaves exactly the state `Asked` gives; it throws exactly when the pad has no net, and it adds a segment exactly when the pad is the net's own |
| Editor.PadAt | src/pcbEditor/DesignArea.java:567-569 | `contains` and then `getUnderlyingComponent`, kept only when it is a pad, give the pad `Under` names |
| Editor.Look | src/pcbEditor/DesignArea.java:567-569 | the same search on the i-th net, which changes nothing |
| Editor.StartAt | src/pcbEditor/DesignArea.java:573-575 | the turn of a net that offers a pad, once the head is cloned, ends as `Asked` says and keeps the board as the record says |
| Editor.HangHead | src/pcbEditor/DesignArea.java:570-575 | cloning the head and then `StartAt` keeps the press going as `Routed` says |
| Editor.Turn | src/pcbEditor/DesignArea.java:567-577 | one turn of the loop over the nets: a net that offers a pad goes through `HangHead`, a net that offers none leaves the press as it was |
| Editor.RouteNets | src/pcbEditor/DesignArea.java:566-578 | the loop over the nets ends as `Routed` says; it stops early only on a throw |
| Editor.RoutePress | src/pcbEditor/DesignArea.java:565-579 | the press without a head ends as `Routed` says from the record `Pressing` takes; a pad changes its net only to one of the nets, and the cursor is unchanged or hangs a head in one of the nets |
| Trace.AimSound | src/pcbEditor/Net.java:282-332 | `contains` then `getUnderlyingComponent` find nothing exactly when no segment and no pad of the net holds the point; a pad found is the first vertex holding it, with its current net |
| Trace.Drop | src/pcbEditor/DesignArea.java:545 | `removeSegment(prevPad, currPad)` on the head's net: the wirings become those of `Dropped`, no pad changes its net, and what a press finds in the new wiring does not change |
| Trace.ExtensionEnds | src/pcbEditor/DesignArea.java:546-563 | a press with a head changes the wiring of the head's net only, which gains the segment to the pad found or from the old head, then the new head's segment, in that order |
| Trace.StepMatched | src/pcbEditor/Net.java:97-123 | joining a vertex to a pad new to the graph keeps every segment matched with an edge, and adds only that pad as a vertex |
| Trace.ConnectKeys | src/pcbEditor/Net.java:97-112 | `addSegment` makes the second pad a vertex, and the first too unless only the second was one; no other vertex appears |
| Trace.ExtensionMatched | src/pcbEditor/DesignArea.java:554-563 | a press on bare board keeps the head's net matched when the old head left the graph with its provisional segment |
| Trace.EndMatched | src/pcbEditor/DesignArea.java:546-553 | ending the trace on a pad of the net keeps the match exactly when the pad is not the start, not joined to it yet, and the start is a vertex |
| Trace.HeadOutKeys | src/pcbEditor/DesignArea.java:545 | dropping the provisional segment adds no vertex to the head's net |
| Trace.Add | src/pcbEditor/Net.java:78-125 | `addSegment` on the wirings: its answer is what the two pads' nets decide; a new segment from `p0` to `p1` exists exactly when it answers true; a pad without a net joins the net |
| Trace.EndOn | src/pcbEditor/DesignArea.java:547-553 | a press on a pad of the head's net: `addSegment(prevPad, pad)`, and unless it threw the net is unselected and the head let go, as `Extension` says |
| Trace.NewHead | src/pcbEditor/DesignArea.java:560 | the new head is a new invisible pad with a ring as wide as a trace, no hole, centred on the old head, and no net |
| Trace.Sprout | src/pcbEditor/DesignArea.java:561-562 | the old head gets a new segment of its net to the new head, which joins the net |
| Trace.Grow | src/pcbEditor/DesignArea.java:557-562 | the new head is made, centred on the old one, and hung from it by a new segment |
| Trace.Fix | src/pcbEditor/DesignArea.java:554-563 | a press on bare board: `addSegment(prevPad, currPad)`, and unless it threw a new head hangs from the old one, as `Extension` says |
| Trace.Sight | src/pcbEditor/DesignArea.java:546-547 | what the press finds in the head's net is `AimAt` of its wiring |
| Trace.Peek | src/pcbEditor/DesignArea.java:546-547 | the same search, which changes no wiring, flag or pad |
| Trace.Land | src/pcbEditor/DesignArea.java:546-563 | the rest of the press once the provisional segment is gone does what `Extension` says, and a pad changes its net only to the head's net |
| Trace.Go | src/pcbEditor/DesignArea.java:546-563 | the search and then `Land`: the press ends as `Extension` says from what it found |
| Trace.Advance | src/pcbEditor/DesignArea.java:545-563 | the whole press with a head: the removal, which ends the press when it throws, then `Go`, as `Pressed` says |
| Trace.AdvanceHead | src/pcbEditor/DesignArea.java:545-563 | the same, seen from outside: every pad keeps its net or joins the head's net |
| Trace.AdvanceKept | src/pcbEditor/DesignArea.java:545-563 | the same, and no segment that existed before changes its net |
| Selection.FirstPart | src/pcbEditor/DesignArea.java:628-632 | the index of the first part containing the point; none exactly when no part contains it |
| Selection.UnderSound | src/pcbEditor/DesignArea.java:594-596 | what a net offers a selection press holds the point: a vertex pad of no part, or a segment of the net when no vertex holds the point; it offers nothing exactly when the first pad hit belongs to a part, or nothing is hit |
| Selection.SpottedFirst | src/pcbEditor/DesignArea.java:593-625 | the nets loop takes the offer of the first net that makes one; it takes nothing exactly when no net makes one |
| Selection.SpottedKinds | src/pcbEditor/DesignArea.java:593-625 | what the nets loop takes is a vertex pad of no part holding the point, or a segment of a net holding it |
| Selection.SpottedAt | src/pcbEditor/DesignArea.java:593-625 | when the nets before position `i` offer nothing, the loop takes the offer of the net at `i` |
| Selection.ChosenParts | src/pcbEditor/DesignArea.java:593-661 | the press picks a part exactly when no net offers anything and some part contains the point, and then a part containing it; it picks nothing exactly when neither happens |
| Selection.ReselectTakes | src/pcbEditor/DesignArea.java:597-607 | the picked element ends its list; kept, the list holds what it held plus the pick, moved to the end, and a list without repeats stays so; not kept, it holds the pick alone |
| Selection.ReselectWithin | src/pcbEditor/DesignArea.java:597-607 | a list that takes a pick holds only what it held and the pick |
| Selection.ReselectTwice | src/pcbEditor/DesignArea.java:604-607 | picking the same element twice leaves the list as one pick did, when the list held it at most once |
| Selection.SelectsTakes | src/pcbEditor/DesignArea.java:593-661 | only the list of the picked kind changes and it ends with the pick; a press outside everything empties all three lists; lists without repeats keep none |
| Selection.Ask | src/pcbEditor/DesignArea.java:594-596 | one turn of the nets loop: the net's offer, `Shown` |
| Selection.Spy | src/pcbEditor/DesignArea.java:593-625 | the nets loop returns what `Spotted` says |
| Selection.PartAt | src/pcbEditor/DesignArea.java:628-632 | the parts loop returns `FirstPart` |
| Selection.Scan | src/pcbEditor/DesignArea.java:593-647 | the two loops of a selection press pick what `Chosen` says, which is a vertex, a segment or a part of the area |
| Selection.UnselectPads | src/pcbEditor/DesignArea.java:598-600 | every pad of the list is unselected |
| Selection.UnselectSegs | src/pcbEditor/DesignArea.java:612-614 | every segment of the list is unselected |
| Selection.UnselectParts | src/pcbEditor/DesignArea.java:635-637 | every part of the list, its footprint and the footprint's pads are unselected |
| Selection.PartPadsWithin | src/pcbEditor/DesignArea.java:485-495 | the footprint pads of a sub-list of the parts are among the pads of all the parts |
| Dragging.Step | src/pcbEditor/DesignArea.java:740-755 | for one segment the loop moves the end not moved yet, or both ends when neither moved, or nothing; afterwards both ends have moved, and none moves twice |
| Dragging.Carry | src/pcbEditor/DesignArea.java:732-756 | the segment loop moves only segment ends that had not moved before it |
| Dragging.SweepStops | src/pcbEditor/DesignArea.java:735-738 | the loop returns early exactly when some selected segment has an end on a pad of a part |
| Dragging.SweepCovers | src/pcbEditor/DesignArea.java:732-756 | when the loop runs to the end, every end of every selected segment has moved, before the loop or in it |
| Dragging.SweepOnce | src/pcbEditor/DesignArea.java:740-755 | no pad moves twice, given distinct selected pads and no segment from a pad to itself |
| Dragging.SweepNext | src/pcbEditor/DesignArea.java:732-756 | the loop over one segment more: a segment on a part returns, otherwise `Step` moves its ends |
| Dragging.SweepHalts | src/pcbEditor/DesignArea.java:735-738 | once the loop has returned, later segments change nothing |
| Dragging.DragOnce | src/pcbEditor/DesignArea.java:726-756 | with distinct selected pads, no self-segment and no segment on a part, every selected pad and every end of a selected segment moves exactly once by the offset, and every other pad stays |
| Dragging.Nudge | src/pcbEditor/DesignArea.java:727 | `pad.translate(delta)` moves that pad once and no other |
| Dragging.Slide | src/pcbEditor/DesignArea.java:752 | `seg.translate(delta)` moves `p0` and then `p1` once each, and no other pad |
| Dragging.SweepOne | src/pcbEditor/DesignArea.java:740-755 | the body of the segment loop moves the pads `Step` names and records them as translated |
| Dragging.SweepAt | src/pcbEditor/DesignArea.java:732-756 | one turn of the segment loop stands where `Carry` says after that segment, and a return there is where the whole loop stops |
| Dragging.SweepSegs | src/pcbEditor/DesignArea.java:732-756 | the segment loop moves exactly the pads `Carry` names, and returns exactly when `Carry` says |
| Dragging.ShiftOne | src/pcbEditor/DesignArea.java:760 | `part.translate(delta)` moves its outline, its footprint's centre and its pads once |
| Dragging.SlidesCount | src/pcbEditor/DesignArea.java:759-761 | a part listed `n` times in the selection moves its outline `n` times |
| Dragging.HopsCount | src/pcbEditor/DesignArea.java:759-761 | a footprint reached through `n` listed parts moves its centre `n` times |
| Dragging.ShiftAt | src/pcbEditor/DesignArea.java:760 | translating the i-th part changes that part's outline and centre and its pads, and nothing else among the parts |
| Dragging.ShiftNext | src/pcbEditor/DesignArea.java:759-761 | after the turn of the i-th part, the parts up to it have moved, each once per listing |
| Dragging.ShiftParts | src/pcbEditor/DesignArea.java:759-761 | the part loop moves every listed part's outline, centre and pads once per listing |
| Dragging.Drag | src/pcbEditor/DesignArea.java:723-761 | the three loops of a drag: the selected pads, the segment ends `Carry` names, and, unless the segment loop returned, the parts; nothing else moves |
| Dragging.DragEnds | src/pcbEditor/DesignArea.java:723-756 | the pad loop and the segment loop, which leave the parts where they were |
| Drc.Visible | src/pcbEditor/DesignArea.java:300-302 | the visible pads of a net, in order, are exactly the pads the segment loop does not skip |
| Drc.VisibleShown | src/pcbEditor/DesignArea.java:300-302 | the visible pads are those a snapshot of the visibility flags shows |
| Drc.Layers | src/pcbEditor/DesignArea.java:291-295 | the nets as the check reads them: each net's pads, visible pads and segments, in order |
| Drc.Hits | src/pcbEditor/DesignArea.java:271-286 | there are no more reports than comparisons |
| Drc.HitsAppend | src/pcbEditor/DesignArea.java:262-388 | the reports of two runs of comparisons, one after the other, are the reports of each in turn |
| Drc.HitsIff | src/pcbEditor/DesignArea.java:271-273 | a comparison is reported exactly when it is made and the overlap test finds the padded outlines overlap |
| Drc.NoHits | src/pcbEditor/DesignArea.java:390-393 | there is no report exactly when no comparison finds an overlap, which is when the no-violation message is shown |
| Drc.PartPairs | src/pcbEditor/DesignArea.java:267-288 | the part loop compares exactly the parts at positions `i < j`, the earlier one widened by the spacing |
| Drc.PartCount | src/pcbEditor/DesignArea.java:267-288 | the part loop makes one comparison per unordered pair of positions, n(n-1)/2 in all |
| Drc.PartsOnce | src/pcbEditor/DesignArea.java:267-288 | with no part listed twice, no part is compared with itself and no pair is compared twice, in either order |
| Drc.PartsDistinct | src/pcbEditor/DesignArea.java:267-288 | with no part listed twice, the part loop repeats no comparison |
| Drc.TowardIn | src/pcbEditor/DesignArea.java:298-339 | an item is compared with exactly what `Opposite` picks from each later net |
| Drc.FromSegsIn | src/pcbEditor/DesignArea.java:296-340 | each segment of a net, and nothing else, is compared with what `Opposite` picks from each later net |
| Drc.FromPadsIn | src/pcbEditor/DesignArea.java:342-387 | each visible pad of a net, and nothing else, is compared with what `Opposite` picks from each later net |
| Drc.NetPairs | src/pcbEditor/DesignArea.java:291-388 | the net loop compares exactly a segment or visible pad of a net `i` with an item of a net `j > i`: no net is compared with itself or with an earlier net |
| Drc.FarPadsUnfiltered | src/pcbEditor/DesignArea.java:349-366 | a visible pad is compared with every pad of every later net, visible or not |
| Drc.SegsMeetShown | src/pcbEditor/DesignArea.java:299-319 | a segment is compared with every visible pad of every later net |
| Drc.SegsSkipHidden | src/pcbEditor/DesignArea.java:300-302 | a segment is never compared with a pad that no net shows |
| Drc.ShownOpposite | src/pcbEditor/DesignArea.java:299-302 | the only pads of a net a segment meets are its visible ones |
| Drc.RemoveEachMultiset | src/pcbEditor/DesignArea.java:284-285 | removing elements a list holds takes exactly one copy of each out of it |
| Drc.BlinkKeeps | src/pcbEditor/DesignArea.java:276-285 | one report leaves each selection list with the same elements, each as often |
| Drc.BlinkFresh | src/pcbEditor/DesignArea.java:276-285 | a report about items that were not selected leaves the list exactly as it was |
| Drc.Light | src/pcbEditor/DesignArea.java:274-275 | `setSelected` on an item sets its flag; on a part, also its footprint's and the footprint's pads' |
| Drc.PadHitsFlat | src/pcbEditor/DesignArea.java:342-387 | the pad loop, pad by pad, reports what the comparisons of the visible pads report |
| Editor.DesignArea.StartRoute | src/pcbEditor/DesignArea.java:565-579 | the press without a head ends as `Routed` says from the board before it: outcome, cursor fields, wirings, selected flags and the nets of the pads; the area stays consistent |
| Editor.DesignArea.SetCursor | src/pcbEditor/DesignArea.java:570-575 | `prevPad`, `currPad` and `isPadAttached` take the cursor the loop carried, and the area is consistent |
| Editor.DesignArea.Reattach | src/pcbEditor/DesignArea.java:552-560 | the cursor fields take a start and a head of one of the nets, and the area is consistent |
| Editor.DesignArea.PressOn | src/pcbEditor/DesignArea.java:545-563 | `Advance` for the attached head: the press ends as `Pressed` says, and every net reference the handlers follow stays owned |
| Editor.DesignArea.Extend | src/pcbEditor/DesignArea.java:544-564 | a head without a net throws a null pointer and changes nothing; otherwise the press ends as `Pressed` says; the area stays consistent |
| Editor.DesignArea.TakePad | src/pcbEditor/DesignArea.java:596-609 | the selected pads become `Reselect` of the pick; unless kept, the pads dropped are unselected; the pick is selected |
| Editor.DesignArea.TakeSeg | src/pcbEditor/DesignArea.java:610-623 | the same for the selected segments |
| Editor.DesignArea.TakePart | src/pcbEditor/DesignArea.java:634-646 | the same for the selected parts: the picked part, its footprint and its pads end selected; without Ctrl (outside Move) every other listed part ends unselected, and so do its footprint and pads unless the picked part shares them |
| Editor.DesignArea.ClearAll | src/pcbEditor/DesignArea.java:650-661 | all three selection lists are emptied and everything they held is unselected |
| Editor.DesignArea.SelectPad | src/pcbEditor/DesignArea.java:596-609 | `TakePad`, which changes no wiring and keeps the area consistent when the pad's net is one of the nets |
| Editor.DesignArea.SelectSeg | src/pcbEditor/DesignArea.java:610-623 | `TakeSeg`, which changes no wiring and keeps the area consistent when the segment's net is one of the nets |
| Editor.DesignArea.SelectPart | src/pcbEditor/DesignArea.java:634-646 | `TakePart` for a part of the area, which changes no wiring and keeps the area consistent |
| Editor.DesignArea.Deselect | src/pcbEditor/DesignArea.java:650-661 | `ClearAll`, which changes no wiring and keeps the area consistent |
| Editor.DesignArea.PutDown | src/pcbEditor/DesignArea.java:587-590 | the part being placed is let go where it is; nothing else changes |
| Editor.DesignArea.Survey | src/pcbEditor/DesignArea.java:593-647 | the two loops pick what `Chosen` says and change nothing |
| Editor.DesignArea.Apply | src/pcbEditor/DesignArea.java:596-661 | the lists become `Selects` of the pick and the flags are as `Flagged` says; no wiring changes |
| Editor.DesignArea.Select | src/pcbEditor/DesignArea.java:584-661 | a part being placed is put down and the lists stay; otherwise the lists become `Selects` of what `Chosen` picks, with the flags `Flagged` gives |
| Editor.DesignArea.SetOrigin | src/pcbEditor/DesignArea.java:582-583 | the drag origin becomes the press point; nothing else changes |
| Editor.DesignArea.Anchor | src/pcbEditor/DesignArea.java:581-583 | the same, and what a selection press then picks is what it would have picked before |
| Editor.DesignArea.MousePressed | src/pcbEditor/DesignArea.java:542-670 | Route with a head runs `Extend`, Route without one `StartRoute`; Move records the origin and falls through to the selection press `Select` of Normal; the drag origin changes only in Move |
| Editor.DesignArea.MouseReleased | src/pcbEditor/DesignArea.java:676-695 | only in Move with a head attached: the head is detached first, then its net unselected and the trace forgotten; a head without a net throws a null pointer after the flag is cleared; in any other case nothing changes |
| Editor.DesignArea.DragSelection | src/pcbEditor/DesignArea.java:723-761 | the selection moves as `Drag` says, and no wiring and no selection list changes |
| Editor.DesignArea.MouseDragged | src/pcbEditor/DesignArea.java:701-771 | in Move the origin moves by the grid offset and the selection by the same offset, as `Drag` says; in any other state nothing moves |
| Editor.DesignArea.HeadTo | src/pcbEditor/DesignArea.java:788-790 | the head is centred on the point, and its segments' lines follow |
| Editor.DesignArea.PartTo | src/pcbEditor/DesignArea.java:795-797 | the part's footprint centre becomes the point and its pads move by the same offset |
| Editor.DesignArea.MouseMoved | src/pcbEditor/DesignArea.java:777-804 | in Route an attached head moves to the grid point nearest the mouse; in Normal the part being placed does; otherwise nothing changes |
| Editor.DesignArea.Show | src/pcbEditor/DesignArea.java:274-277 | the first half of a report: both items are added to their selection lists, the later-found one first |
| Editor.DesignArea.Hide | src/pcbEditor/DesignArea.java:282-285 | the second half: both items are unselected and removed once from their lists |
| Editor.DesignArea.Flash | src/pcbEditor/DesignArea.java:273-285 | one report leaves the lists as `Blink` says, both items unselected, and no other flag set |
| Editor.DesignArea.Weigh | src/pcbEditor/DesignArea.java:271-286 | one comparison reports exactly when the overlap test finds an overlap, and leaves every list with the same elements |
| Editor.DesignArea.Compare | src/pcbEditor/DesignArea.java:270-287 | an item against a list in turn reports what `Hits` of those comparisons says |
| Editor.DesignArea.Glimpse | src/pcbEditor/DesignArea.java:299-319 | a hidden pad is skipped; a visible one is compared once |
| Editor.DesignArea.CompareShown | src/pcbEditor/DesignArea.java:299-319 | a segment against a net's pads reports on the visible pads only |
| Editor.DesignArea.ComparePads | src/pcbEditor/DesignArea.java:299-319 | the loop over a net's pads skips the hidden ones only when the item is a segment |
| Editor.DesignArea.CompareNet | src/pcbEditor/DesignArea.java:298-339 | an item against one later net: its pads as `Opposite` picks them, then its segments |
| Editor.DesignArea.CompareAt | src/pcbEditor/DesignArea.java:298-339 | the same on the j-th later net, which the check leaves as it read it |
| Editor.DesignArea.CompareLater | src/pcbEditor/DesignArea.java:298-339 | an item against each later net in turn reports what `Toward` says |
| Editor.DesignArea.SegLoop | src/pcbEditor/DesignArea.java:296-340 | the segment loop of a net reports what `FromSegs` says |
| Editor.DesignArea.ComparePad | src/pcbEditor/DesignArea.java:343-386 | a hidden pad is skipped; a visible one is compared with every later net |
| Editor.DesignArea.PadLoop | src/pcbEditor/DesignArea.java:342-387 | the pad loop of a net reports what `FromPads` of its visible pads says |
| Editor.DesignArea.NetAt | src/pcbEditor/DesignArea.java:293-387 | one net of the net loop: its segments' reports, then its visible pads' |
| Editor.DesignArea.NetLoop | src/pcbEditor/DesignArea.java:291-388 | the net loop reports what `NetChecks` says |
| Editor.DesignArea.PartLoop | src/pcbEditor/DesignArea.java:267-288 | the part loop reports what `PartChecks` says |
| Editor.DesignArea.CheckAll | src/pcbEditor/DesignArea.java:266-388 | both loops report what `Checks` says, and leave every list with the same elements |
| Editor.DesignArea.RunDesignRuleCheck | src/pcbEditor/DesignArea.java:262-394 | the reports are those of the part pairs and then the net pairs that overlap; the check is clean exactly when no comparison overlaps; the selection lists keep their elements and every reported item ends unselected |

## Left out

- User interface and I/O are not modelled: the Swing editor window, the dialogs, the net manager's own window, the bill of materials, serialisation, painting, `repaint`, and the notification of coordinate listeners.
- Colours are dropped from every class. They only affect painting.
- Geometry that the code takes from AWT is only partly computed. `Ellipse2D.contains` is computed. The stroked-line hit test and the grid's rounding in `getClosestGP` are the constants `hit` and `snap` of the design area. The `Area` intersection in `isOverlapping` is the `overlaps` parameter of the design-rule check.
- Coordinates and widths are reals. Floating-point rounding is not modelled.
- The right-click context menu of a part (`Part.showContextMenu` and the listener it adds) is not modelled: it dispatches deferred work through the event queue.
- `Part.toString`, `Pad.toString` and the id counters used only for naming are not modelled beyond the fields they read.
- Pcb.Pad.SetName: takes a string, so it cannot set the name back to null as `setName(null)` can.
- SymbolTables.ST.GetKeys: returns the key list as a value, a snapshot; Java returns the live list, so later changes to the table are not seen through the result here.
- Pcb.Pad.GetListeners: returns the listener list as a snapshot, where Java returns the live list.
- Editor.DesignArea.Delete: when a removal throws, it only states the outcome, the wirings and which lists were emptied; it makes no consistency claim about the area left behind.
- SymbolTables.ST.GetValues: returns the value list as a snapshot; Java returns the live list, so later changes to the table are not seen through the result here.
- Pcb.Footprint: the centre is a value. Java stores the `Point2D` object the caller passes and updates it in place, so a caller that kept that object sees it move; the model does not capture that aliasing.
- Editor.DesignArea.AddNet: stands for the net manager window (`showNetManager`), which is not part of this model. It is an environment hook: it appends a consistent net with a graph of its own to the live list of nets and keeps the area consistent. The source does not say what the net manager does with the list.
- The mouse handlers do not notify the coordinate listeners and do not repaint. The right-click branch of `mousePressedImpl` opens the context menu only, and is left out with it.
- The design-rule check does not show the warning dialog of each report or the final "no violations" dialog. The reports are returned in order, and `clean` says when the final dialog would appear.
- The grid offset of a drag is `snap(mouse) - snap(moveOrigin)`, so the model does not say how far a point is from its grid point.

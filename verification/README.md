# Verified models from the XPilot tools

This project models the algorithmic core of five programs of the XPilot family and proves what they
promise, for all inputs and all runs. `dafny verify dfyconfig.toml` checks all of it.

**Block maps to polygons (`mapconvert.py`).** A map is a torus of blocks; some are filled, some half
filled along a diagonal. The wall is split into parts, the boundary of every part is traced into closed
polygons, the polygons are sorted by how they turn, and those of one part are linked into a single
outline. The key to tracing is in `BlockMap`: `noedge(l, d)` says that the 45 degree wedge clockwise of
ray `d` at corner `l` is wall, a boundary edge has wall on one side only, and turning as far left as
possible is a bijection on boundary edges. `FindEdges`, `WrappingLoops` and `HorizontalLoops` follow
the three scans of `poly_findedges`: the main scan meets every loop that has a diagonal or downward edge
at the one key edge of each of its blocks, the scan of row 0 meets the loops that go around the map
upwards, and the scan of column 0 those that go around it straight to the left or right. `PolyPlaces` says
where the polygons lie in the unwrapped plane. `NearestPair`,
`StripWrap`, `PolyLink` and `LinkPart` link the polygons of a part, and `Outlines` puts everything together.

**The random map generator (`wildmap.c`).** The map is one array that wraps around as a helix
(`HelixMap`). Modelled are the flood fill with its linked list of chunks, the joining of constructs
that almost touch, labelling with 8-bit labels that are recycled, the removal of holes, filling up to the
wanted ratio, smoothing, and the random placement of bases and other things.

**The ship outline graph (`Graph.java`, `Edge.java`, `Vertex.java`).** A multigraph on the heap; objects
are compared by identity. The Euler tour, the component search and the removal of edges are methods on
classes, related to the abstract graph `Multigraph.Shape`.

**Ship text (`Editors.java`).** The printer and the hand-written scanner of ship definitions.

**Selection sampling (`mkmap.c`).** The choice of random sites, for every stream of random numbers.

Each method that changes state in the originals is a method here, proved against a specification
function or predicate, and lemmas then say what the specification means. Long loop bodies are split into
methods of their own. `Reach` and `HelixMap` define connectedness by paths, `Multigraph` by closed sets of
edges.

## Model

| member | source | states |
|---|---|---|
| BlockMap.NoEdgeMeaning | JXPilot/misc/mapconvert.py:185-203 | the answer of noedge is exactly whether the points of the open wedge clockwise of the ray are wall, for all eight rays and all block shapes |
| BlockMap.Transport | JXPilot/misc/mapconvert.py:185-203 | an edge with wall on its left and none on its right is seen the same way from its far end |
| BlockMap.NextBoundary | JXPilot/misc/mapconvert.py:286-288 | the edge the tracer takes next is a boundary edge again, and never the reversal |
| BlockMap.NextInjective | JXPilot/misc/mapconvert.py:286-288 | no two boundary edges have the same next edge, so tracing must come back to its start |
| TracePoly.Wrapcoords.GoDir | JXPilot/misc/mapconvert.py:156-160 | the moved location is the neighbouring corner of the torus |
| TracePoly.TurnLeft | JXPilot/misc/mapconvert.py:286-288 | the turning loop ends after at most seven rays, at the leftmost ray without wall |
| TracePoly.Trace | JXPilot/misc/mapconvert.py:267-295 | tracing ends; it walks different boundary edges each following the one before; a returned polygon is a closed unit-step chain displaced by a multiple of the map size; a restricted trace gives up exactly when it would leave its directions; the done marks are those of the edges walked |
| WallParts.PolyPartition | JXPilot/misc/mapconvert.py:230-261 | exactly the wall blocks are labelled; each label wraps to its block and is reached from the first block of its part by unit steps through joined wall in the unwrapped plane |
| WallParts.WaysSolid | JXPilot/misc/mapconvert.py:231-237 | the table of ways lists a side of a block exactly if all points of the block that are closer to this side than to the others are solid |
| WallParts.JoinedWays | JXPilot/misc/mapconvert.py:247-256 | the test for going on to a neighbour holds exactly if the wall is solid on both sides of the common side |
| WallParts.PartsAreComponents | JXPilot/misc/mapconvert.py:230-261 | two wall blocks have the same part if and only if steps across sides that are solid on both sides connect them |
| BoundaryLoops.NextPart | JXPilot/misc/mapconvert.py:286-288 | an edge and the next one bound the same part |
| BoundaryLoops.KeyIsBoundary | JXPilot/misc/mapconvert.py:298-322 | the starting edge the main scan chooses for a block is a boundary edge with that block on its left |
| BoundaryLoops.MarkNearKey | JXPilot/misc/mapconvert.py:276-285 | an edge that marks a block as done is the key edge of the block or next to it on the same loop |
| FindEdges.KeysCoverAll | JXPilot/misc/mapconvert.py:298-323 | after the main scan the edges left over form loops that only go right, up and left |
| FindEdges.ScanBlocks | JXPilot/misc/mapconvert.py:298-323 | the main scan emits every loop with another direction once, to the part it belongs to, and where that part lies |
| WrappingLoops.ScanRow | JXPilot/misc/mapconvert.py:325-334 | the scan of row 0 emits once every loop left over that goes up, where its part lies, and the edges left after it lie on loops that never go up |
| HorizontalLoops.AllCovered | JXPilot/misc/mapconvert.py:336-353 | after the scan of column 0 no boundary edge is left |
| HorizontalLoops.PolyFindEdges | JXPilot/misc/mapconvert.py:263-354 | for every part, the returned polygons are traced closed walks, their edges are exactly the boundary edges of the part, each once, and all their corners lie beside the part as it is unrolled from its first block |
| PolyPlaces.NextConnects | JXPilot/misc/mapconvert.py:286-292 | the wall on the left of an edge and that on the left of the next one belong to one piece of the unrolled wall |
| PolyPlaces.TracedInPlace | JXPilot/misc/mapconvert.py:322-323 | a polygon traced from the stored position of a block lies beside the part of that block, with all its corners |
| PolyPlaces.OnePiece | JXPilot/misc/mapconvert.py:263-354 | so any two corners of a part, of one polygon or of two, have one connected piece of unrolled wall on their left |
| PolyPlaces.ExactPlace | JXPilot/misc/mapconvert.py:322-323 | if the part does not go around the map, every corner is at the stored position of the block on its left, plus the place of the corner at that block |
| PolyDir.CrossingIsHalves | JXPilot/misc/mapconvert.py:356-368 | a half-plane crossing is counted exactly when the heading passes a multiple of half a turn, with the right sign |
| PolyDir.PolyDirection | JXPilot/misc/mapconvert.py:356-368 | for a cycle of directions without reversals, the result is the total turning divided by a full turn, exactly |
| PolyDir.TracedNoReversal | JXPilot/misc/mapconvert.py:356-368 | the traced polygons meet that condition |
| NearestPair.TorusLeast | JXPilot/misc/mapconvert.py:513-516 | none of the ways in which the torus wrapping moves vectors makes a vector shorter than it does itself, and opposite vectors get the same length |
| NearestPair.TorusFaithful | JXPilot/misc/mapconvert.py:513-516 | wrapping changes a difference by multiples of the map size only |
| StripWrap.StripShortest | JXPilot/misc/mapconvert.py:528-530 | no multiple of the strip vector leaves a shorter vector than the one that the strip wrapping takes away |
| StripWrap.StripLeast | JXPilot/misc/mapconvert.py:528-530 | so the strip wrapping is as findmin needs it, for every strip vector but zero |
| StripWrap.StripFaithful | JXPilot/misc/mapconvert.py:528-530 | along a strip around the map it moves points by multiples of the map size |
| NearestPair.NotCloser | JXPilot/misc/mapconvert.py:389-395 | with such a wrapping, j king's moves bring a point closer by at most 1.4143 j |
| NearestPair.RowSkips | JXPilot/misc/mapconvert.py:389-395 | leaving out points that are too far away does not change what the scan of a row finds |
| NearestPair.ExhaustiveClosest | JXPilot/misc/mapconvert.py:370-398 | comparing all pairs gives a least distance below the bound, and none if there is none |
| NearestPair.OffsetLeads | JXPilot/misc/mapconvert.py:396-398 | the returned offset leads from the first point to the second modulo the map size, also after the swap |
| NearestPair.FindMin | JXPilot/misc/mapconvert.py:370-398 | the skipping search returns the very pair that comparing all pairs returns |
| LinkTree.EveryStepOnce | JXPilot/misc/mapconvert.py:406-424 | the walk around the tree takes every polygon edge exactly once and every link exactly once each way |
| ClosedWalk.OutlineCloses | JXPilot/misc/mapconvert.py:406-424 | the outline is one closed chain if and only if every polygon has zero net displacement |
| TraverseTree.Traverse | JXPilot/misc/mapconvert.py:406-424 | traverse ends, appends exactly that walk to the result, and deletes links below its node only |
| PolyLink.UpdateDists | JXPilot/misc/mapconvert.py:536-540 | every remaining node knows its closest pair of points to all nodes linked so far |
| PolyLink.LinkPolys | JXPilot/misc/mapconvert.py:532-556 | the polygons become one tree; every link is shortest across the cut between the polygons linked before and the others, and leads from corner to corner modulo the map size; the result is the walk around the tree |
| LinkPart.TracedNet | JXPilot/misc/mapconvert.py:521-527 | the assertions that a wrapping polygon is displaced by a multiple of the map size never fail |
| LinkPart.PolyLinkPart | JXPilot/misc/mapconvert.py:495-556 | poly_link fails exactly for parts without a polygon, with two outer polygons, or with wrapping polygons in another number than two, beside an outer one, or without displacement; otherwise it links all polygons; every link is the plain difference of its corners beside an outer polygon, a shortest one on the torus between inner polygons only, and a shortest one along the strip between wrapping polygons, and no such way across its cut is shorter; extrawrap is asked for exactly if all polygons are inner ones |
| LinkPart.ChoiceMeans | JXPilot/misc/mapconvert.py:507-531 | whether poly_link fails, and whether the outline is to be cut open, follows from the turning of the polygons alone |
| LinkPart.ChoiceWays | JXPilot/misc/mapconvert.py:507-531 | the wrapping that poly_link chooses gives the ways that the part asks for |
| LinkPart.RightIsLeast | JXPilot/misc/mapconvert.py:507-531 | no way that the part asks for is shorter than this wrapping makes it |
| FullMap.PartIsFull | JXPilot/misc/mapconvert.py:561-568 | a part has no boundary edge if and only if every block of the map is filled |
| OutlineEdges.OutlineTakes | JXPilot/misc/mapconvert.py:406-424 | on the torus, the outline of a part takes exactly the edges of its polygons, each once, besides the links |
| Outlines.MakePolys | JXPilot/misc/mapconvert.py:561-572 | partition, tracing and linking together: every part gets an outline that takes each of its boundary edges exactly once and no other edge, around a tree of its polygons with shortest links, unless poly_link fails for some part, as it does if the map is one solid block; the polygons lie where their parts lie, and an outline is to be cut open exactly if its part has inner polygons only |
| WrapVector.FloorDivRemainder | JXPilot/misc/mapconvert.py:458-460 | each step of the Euclid loop gets smaller under floor division, for negative numbers too |
| WrapVector.Reduction | JXPilot/misc/mapconvert.py:456-461 | the loop ends with a combination of both inputs that is a greatest common divisor of them |
| WrapVector.SecondWrap | JXPilot/misc/mapconvert.py:454-464 | a second vector is found if and only if the first is a multiple of the map size with coprime quotients, and then the last assertion holds |
| HelixMap.NearSymmetric | JXPilot/misc/contrib/wildmap.c:42-53 | left and right, and up and down, undo each other everywhere on the helix |
| HelixMap.TorusConnected | JXPilot/misc/contrib/wildmap.c:42-53 | any two cells are connected |
| Worklist.Chunks.Reserve | JXPilot/misc/contrib/wildmap.c:303-313 | making room never loses a pending cell, and leaves room for four |
| Worklist.Chunks.Advance | JXPilot/misc/contrib/wildmap.c:335-339 | going on to the next chunk leaves the pending cells of all later chunks |
| WildMap.FloodMap | JXPilot/misc/contrib/wildmap.c:271-340 | the fill ends, and marks exactly the cells that trigger cells connect to the start |
| ConnectMap.JoinLeft | JXPilot/misc/contrib/wildmap.c:434-443 | a gap of one or two cells left of the filled cell p0 is filled, exactly if there is one, and no other cell |
| ConnectMap.JoinUp | JXPilot/misc/contrib/wildmap.c:444-453 | the same for a gap above p0 |
| ConnectMap.JoinGaps | JXPilot/misc/contrib/wildmap.c:433-465 | after both gaps, a square filled on one diagonal only gets its other two cells, exactly if it is one, and nothing else happens |
| ConnectMap.FillCorner | JXPilot/misc/contrib/wildmap.c:466-552 | the empty cell p5 is filled exactly if it is pinched, with the value of a filled neighbour, and nothing else happens |
| ConnectRules.CornerRules | JXPilot/misc/contrib/wildmap.c:466-552 | the sixteen rules for p5 come to this: a corner of its ring of neighbours is filled, and across the middle the opposite corner, or both sides beside that one, or one of these sides and nothing else in the ring |
| ConnectMap.ConnectMap | JXPilot/misc/contrib/wildmap.c:403-576 | the passes end; the map at the end comes from the old one by filling such gaps, squares and pinched cells, one after the other; no filled cell changes, no rule applies any more, and a map to which none applies is left as it is |
| ConnectSteps.SettledIsEnd | JXPilot/misc/contrib/wildmap.c:403-576 | no rule applies at any window of a pass if and only if no gap, square or pinched cell on the map can be filled |
| ConnectSteps.SettledMeans | JXPilot/misc/contrib/wildmap.c:405-408 | then no gap in a line or column is one or two cells wide, no square of four is filled on one diagonal only, and no empty cell is pinched |
| ConnectMap.MovedIsNext | JXPilot/misc/contrib/wildmap.c:553-572 | the moved pointers see the window of the next cell, across line ends and the map's ends |
| Labels.CountLabels | JXPilot/misc/contrib/wildmap.c:578-591 | every value's count is the number of cells that have it |
| Labels.SortLabels | JXPilot/misc/contrib/wildmap.c:593-620 | the table lists 0, 1, then all other labels by falling count, equal counts by rising label |
| Labels.SortedPermutes | JXPilot/misc/contrib/wildmap.c:593-620 | such a table is a permutation with non-increasing counts from index 2 on |
| Labels.CutOffRenumbers | JXPilot/misc/contrib/wildmap.c:645-650 | recycling keeps 0 and 1, gives the kept labels different numbers below 224, and erases only the smallest constructs |
| Labels.Recycle | JXPilot/misc/contrib/wildmap.c:643-655 | the map is renumbered by just that table |
| LabelTheory.FloodIsConstruct | JXPilot/misc/contrib/wildmap.c:641-658 | flooding the ones from a cell reaches exactly the construct of that cell, whatever was labelled before |
| LabelTheory.LabelRenumber | JXPilot/misc/contrib/wildmap.c:651-653 | renumbering keeps connected cells equal, equal labels connected, and unprocessed cells unprocessed |
| LabelErasure.AllUsed | JXPilot/misc/contrib/wildmap.c:642-643 | when the labels run out for the first time there are at least 255 constructs |
| Labels.LabelMap | JXPilot/misc/contrib/wildmap.c:622-663 | at the end connected cells carry equal values, cells sharing a label are connected, no cell is 1, other cells are 0; constructs are erased if and only if there are more than 254, and never the largest one |
| Partition.RegionGrows | JXPilot/misc/contrib/wildmap.c:701-722 | a connected region stays connected when whole constructs of the other cells are added |
| Partition.ChooseRegion | JXPilot/misc/contrib/wildmap.c:679-685 | the marker names the largest open region if that has more cells than are left without a label, and those cells otherwise |
| Partition.ChooseErased | JXPilot/misc/contrib/wildmap.c:692-718 | exactly which labels are erased, from the ranking, the counts and the excess |
| FillRatio.OpenCells | JXPilot/misc/contrib/wildmap.c:692-721 | erasing opens exactly as many cells as the constructs have that go |
| FillRatio.EnoughGoes | JXPilot/misc/contrib/wildmap.c:700-718 | if all constructs together exceed the excess, more than the excess goes if and only if at most one smaller construct is spared |
| FillRatio.FillMet | JXPilot/misc/contrib/wildmap.c:667-670 | so the walls left are fewer than the fill ratio asks for exactly then; if all constructs do not exceed the excess, all of them go |
| FillRatio.TargetMissed | JXPilot/misc/contrib/wildmap.c:708-717 | constructs of 10, 9 and 9 cells of which more than 18 cells are to go: 10 go, since each of the others is spared as if it were the only one |
| Partition.PartitionMap | JXPilot/misc/contrib/wildmap.c:665-723 | every other construct is erased as a whole or keeps a label of its own, and the open cells left are connected if the largest open region outnumbers the unlabelled cells |
| OpenBands.RolesSwap | JXPilot/misc/contrib/wildmap.c:679-718 | without that condition it can fail: with two open bands between two walls, each at least a line wide and neither band larger than the walls, the open cells at the end are connected if and only if the target is at most the number of open cells |
| SmoothMap.SmoothMap | JXPilot/misc/contrib/wildmap.c:725-834 | smoothing ends; the map at the end comes from that of solid blocks and spaces by rounding corners and clearing spikes, one after the other, and nothing else; it has spaces, solid and diagonal blocks only, and no corner at any square that a pass looks at |
| SmoothMap.SmoothCell | JXPilot/misc/contrib/wildmap.c:757-815 | a step rounds p4 exactly if it is a corner, to the diagonal block whose solid half reaches just the sides with wall beyond them, clears it exactly if it is a spike, and does nothing else |
| SmoothRules.RulesMean | JXPilot/misc/contrib/wildmap.c:758-814 | corners and spikes are the same in all four directions: three places of wall in a row and three of space across; or five places of space in a row and no wall in the two corners at the back |
| SmoothMap.StepFaces | JXPilot/misc/contrib/wildmap.c:757-781 | a step changes one cell; but for the first square of a pass, a diagonal block put there has its solid half at those neighbours of the cell that are wall, and space on its other sides |
| SmoothMap.FacesButFirst | JXPilot/misc/contrib/wildmap.c:745-753 | on every torus that is large enough: all rounded corners face so if and only if they are not rounded in the first square of a pass, or the map has just nine cells |
| SmoothMap.SmoothIsEnd | JXPilot/misc/contrib/wildmap.c:742-833 | a map is smooth, as a pass sees it, if and only if no corner or spike can be rounded or cleared |
| SmoothMap.SmoothMeans | JXPilot/misc/contrib/wildmap.c:745-753 | so no sharp corner is left at any cell but the first |
| SmoothMap.SmoothButFirst | JXPilot/misc/contrib/wildmap.c:745-753 | on every torus that is large enough: all settled maps are smooth at a cell if and only if it is not the first |
| SmoothMap.CornerOverlooked | JXPilot/misc/contrib/wildmap.c:749-780 | exactly which blocks in the two displaced places let a corner be overlooked |
| SmoothMap.FirstCornerMissed | JXPilot/misc/contrib/wildmap.c:749-752 | a map with a corner there and none elsewhere stays as it is exactly with these blocks in the two cells beside the right ones |
| Decorations.PutBase | JXPilot/misc/contrib/wildmap.c:882-917 | a new base keeps all earlier bases safe, and is safe itself |
| Decorations.PutKeeps | JXPilot/misc/contrib/wildmap.c:919-1151 | putting a thing that keeps its distance, or fuel in a wall, keeps all bases safe and all cannons on their walls |
| DecorateMap.PlaceBases | JXPilot/misc/contrib/wildmap.c:880-917 | the bases placed are safe, and the teams take turns; each base is on the first spot drawn that will do, and there are fewer than wanted only if as many spots in a row would not do as the map has cells |
| DecorateMap.TeamIsRemainder | JXPilot/misc/contrib/wildmap.c:906-909 | base i belongs to team teams - 1 - i mod teams |
| DecorateMap.TryCannon | JXPilot/misc/contrib/wildmap.c:940-1000 | the first spot drawn gets the cannon that is a space beside a wall that fits its type, more than one away from every base both ways; nothing else changes, and nothing at all if as many spots will not do as the map has cells |
| DecorateMap.GoodWallMeans | JXPilot/misc/contrib/wildmap.c:946-983 | the wall fits if it is solid at the side of the cannon; only the cannon that points up is not fixed to one of the two diagonal blocks that would hold it |
| DecorateMap.PlaceCannons | JXPilot/misc/contrib/wildmap.c:919-1005 | as many cannons are placed as are wanted, each so, fewer only if the last attempt has failed |
| DecorateMap.PlaceFuel | JXPilot/misc/contrib/wildmap.c:1007-1031 | the same for fuel, in solid blocks beside a space |
| DecorateMap.PlaceGravity | JXPilot/misc/contrib/wildmap.c:1033-1089 | the same for gravity blocks, with spaces all around and more than 11 away from all bases in x or y |
| DecorateMap.PlaceWorms | JXPilot/misc/contrib/wildmap.c:1091-1151 | the same for wormholes, with open cells around and more than three away from all bases in x or y |
| DecorateMap.OnlyOpenAround | JXPilot/misc/contrib/wildmap.c:1106-1131 | the test for a wormhole passes exactly if only spaces, gravity blocks and wormholes are within three cells |
| DecorateMap.DecorateMap | JXPilot/misc/contrib/wildmap.c:836-1154 | on every run each base still has its digit, open cells left, right and two up, and solid ground or fuel below; gravity blocks are more than 11 away from all bases in x or y, wormholes more than 3; of each kind as many things are placed as are wanted, on the first spots drawn that will do, fewer only after a failed attempt |
| DecorateMap.BorderMap | JXPilot/misc/contrib/wildmap.c:1156-1195 | the blocks on both edges of each line fit together, each line ends with a line end, nothing else changes, the bases stay safe, and of all cannons exactly those lose their wall that were fixed to a diagonal edge block which has become a space |
| DecorateMap.EdgesFitMeans | JXPilot/misc/contrib/wildmap.c:1156-1195 | blocks on both edges fit exactly if, where one of them is diagonal, the wall is solid on both sides of their common side or on neither |
| ShipGraph.Graph.RemoveEdge | JXPilot/legacy/ShipShaper/shipshaper/graph/Graph.java:67-79 | the graph afterwards is the one without the edge and without the vertices that had only it |
| Multigraph.StuckIsHome | JXPilot/legacy/ShipShaper/shipshaper/graph/Graph.java:325-374 | by parity, a walk along unused edges can only get stuck at its target |
| Multigraph.TrailCoversAll | JXPilot/legacy/ShipShaper/shipshaper/graph/Graph.java:252-271 | in a connected graph a closed trail that leaves no unused edge at its vertices uses every edge |
| ShipGraph.Graph.ScoutPath | JXPilot/legacy/ShipShaper/shipshaper/graph/Graph.java:325-374 | scouting ends at its target, along different unmarked edges, which are then marked |
| ShipGraph.Graph.WalkPath | JXPilot/legacy/ShipShaper/shipshaper/graph/Graph.java:289-323 | the recursion ends, and lengthens the path by detours until no vertex on it has an unmarked edge |
| ShipGraph.Graph.EulerPathExists | JXPilot/legacy/ShipShaper/shipshaper/graph/Graph.java:379-398 | true if and only if all valencies are even |
| ShipGraph.Graph.FindEulerPath | JXPilot/legacy/ShipShaper/shipshaper/graph/Graph.java:252-273 | in a connected even graph the result is a cyclic sequence of as many vertices as there are edges, whose steps use every edge exactly once |
| ShipGraph.Graph.GetGraphConnectedTo | JXPilot/legacy/ShipShaper/shipshaper/graph/Graph.java:162-187 | the search ends although its queue holds edges repeatedly, and returns exactly the component of the start edge as a valid graph |
| ShipGraph.Graph.IsConnected | JXPilot/legacy/ShipShaper/shipshaper/graph/Graph.java:147-160 | true if and only if the graph is connected |
| ShipGraph.Graph.GetIslands | JXPilot/legacy/ShipShaper/shipshaper/graph/Graph.java:189-206 | the islands are the components, each edge is in one of them, and there is at most one if and only if the graph is connected |
| ShipFrames.Save | JXPilot/legacy/xpeditorapplet/Editors.java:501-599 | the text written is the sections of the ship in order, or an error without a hull |
| ShipText.FlyText | JXPilot/legacy/xpeditorapplet/Editors.java:501-592 | the exact text of a ship that has all sections: the heading, the tags, their order and the form of points |
| ShipText.PairsRead | JXPilot/legacy/xpeditorapplet/Editors.java:3620-3707 | the scanner reads back a written list of points in order, whatever number it read before |
| ShipRoundTrip.FindTag | JXPilot/legacy/xpeditorapplet/Editors.java:3593-3613 | the search for a section tag finds the first section that has it as its tag or in its text, and nothing if there is none |
| ShipRoundTrip.RoundTrip | JXPilot/legacy/xpeditorapplet/Editors.java:3593-4570 | for every ship with a hull, loading the saved ship gives the same ship, all fields and lists, if and only if coordinates have at most two digits, lists keep their limits, names are trimmed and free of closing brackets, and where a name hides a section by holding its tag, what follows there reads the same as the section |
| ShipRoundTrip.TrimDrops | JXPilot/legacy/xpeditorapplet/Editors.java:3601-3610 | trimming a name takes away all blanks at its ends and nothing else |
| ShipRoundTrip.TrimOnly | JXPilot/legacy/xpeditorapplet/Editors.java:3601-3610 | the result is the only part of a text that has no blank at its ends and only blanks around it |
| ShipRoundTrip.ScanSame | JXPilot/legacy/xpeditorapplet/Editors.java:3620-3707 | what the scanner reads depends on the text up to the closing bracket only |
| ShipRoundTrip.LoadedFits | JXPilot/legacy/xpeditorapplet/Editors.java:3593-4570 | on every text at all, a ship that is loaded keeps those bounds |
| ShipRoundTrip.NamedLikeTags | JXPilot/legacy/xpeditorapplet/Editors.java:3613-3625 | so a ship named SH: does not come back, and one named MR: does if it has no missile racks |
| ShipRoundTrip.ThreeDigitsLost | JXPilot/legacy/xpeditorapplet/Editors.java:3634-3648 | a coordinate of three digits is not read back |
| ShipFrames.SecondPassSame | JXPilot/legacy/xpeditorapplet/Editors.java:3593-3593 | the second pass of the loader changes nothing, for every text |
| ShipFrames.ScanList | JXPilot/legacy/xpeditorapplet/Editors.java:3615-3706 | the scanner fails exactly if the text ends before the bracket or the list is full, and otherwise stores what it read |
| ShipFrames.LoadFrame.Load | JXPilot/legacy/xpeditorapplet/Editors.java:3570-4572 | loading succeeds exactly on texts that stand for a ship, and the frame then holds that ship and nothing of the one before |
| Selection.NeedBounds | JXPilot/legacy/xpilot-ng-4.7.3/contrib/mkmap.c:261-275 | for every stream, what is still wanted is never negative and never more than the sites left |
| Selection.Chances | JXPilot/legacy/xpilot-ng-4.7.3/contrib/mkmap.c:230-233 | a selection of k of the sites that a scan visits is made by N! (M - N)! C(M - seen, N - k) of the fair lists of draws |
| Selection.ListsTake | JXPilot/legacy/xpilot-ng-4.7.3/contrib/mkmap.c:266-273 | the lists counted are exactly the fair ones with which the scan takes just those sites |
| Distribute.RandomDistribute | JXPilot/legacy/xpilot-ng-4.7.3/contrib/mkmap.c:234-277 | exactly the accepted sites that the draws take are set, to what the test function said; there is no division by zero; the count is returned |
| Distribute.Shortfall | JXPilot/legacy/xpilot-ng-4.7.3/contrib/mkmap.c:260-260 | what is missing is at most the number of accepted sites in the last row |
| Distribute.AlwaysComplete | JXPilot/legacy/xpilot-ng-4.7.3/contrib/mkmap.c:260-260 | the wanted number is placed on every stream if and only if nothing is wanted or the last row has no accepted site |
| Distribute.EqualChances | JXPilot/legacy/xpilot-ng-4.7.3/contrib/mkmap.c:234-277 | of the fair lists of draws, N! (M - N)! C(M - seen, N - k) place things on just a given choice of k sites, so all choices of as many sites are equally likely |

## Left out

- Distances are squared integers and square roots exact reals; the quotient in the strip wrapping is an exact real too, and is rounded as Python 2 does, halves away from zero. The rounding of floats is not modelled.
- NearestPair.FindMin: the square root function is a parameter with its defining property.
- PolyDir.PolyDirection: that a simple loop turns by exactly one full turn is not proved; closing of outlines is stated in terms of net displacement instead.
- LinkPart.PolyLinkPart: the distance 1e98 for nodes not reached yet is a parameter above all distances between points; parts that wrap around the map in all directions are returned before they are cut open.
- poly_handle_totalwrap in mapconvert.py beyond its assertions and Euclid loop: the padding and the double cut.
- Option handling, parsing, shrinking of walls and XML output of mapconvert.py.
- ShipGraph.Graph.FindEulerPath: evenness, connectedness, consistent incidence lists and the absence of self-loops and isolated vertices are preconditions; `makeAllVerticesEven`, which establishes the first, is not part of this model.
- removeDoubles, findShortestPaths, bounds and printing in Graph.java.
- WildMap.FloodMap: the trigger and the marker must differ, as they do in all calls; freeing chunks and running out of memory are not modelled.
- Labels.SortLabels: the table has 256 entries, and clearing it is taken to clear just these.
- Partition.PartitionMap: the wanted number of wall cells is a parameter, since it comes from a float ratio; when no open region outnumbers the unlabelled cells, it is decided for maps of two open bands only whether the open cells are connected at the end (OpenBands.RolesSwap).
- ConnectMap.FillCorner: which of the filled neighbours gives its value is not stated; the map holds zeros and ones only when Connect_map is called, so the value is 1.
- Generate_map in wildmap.c, the option ranges, and the scaling inside fuzz_bound: a random number is any number in its range.
- DecorateMap.BorderMap: the end of the string after the last line is not modelled.
- ShipRoundTrip.RoundTrip: a ship without a hull is not saved at all (see ShipFrames.Save).
- ShipFrames.LoadFrame.Load: an exception is a result; the fields of the frame after an exception are not described.
- The drawing area, dialogs and menus of Editors.java.
- Distribute.RandomDistribute: the test function is a function of the site, evaluated once per site as in the original; its own random choices are part of it.
- The terrain growing, the validity tests and the printing of mkmap.c.

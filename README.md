# Scanline Z-buffer rasteriser, modelled in Dafny

This project models the software rasteriser of ZBuffer-Scanline-Renderer and proves properties of it.

The rasteriser takes polygons as already projected vertices. For each polygon it works out the depth plane, clips every side to the frame with Cohen-Sutherland, and turns the sides into edges in three steps:
- it stores the upper endpoint;
- it counts the rows the edge covers;
- it records the x step per row, or the ending x for an edge one row tall.

The polygon then joins the table of its top row. Drawing walks the rows from the top of the frame down. For each row it:
1. clears the row's depth buffer and pixels;
2. activates the polygons that start on the row;
3. pairs up their edges that start there. Horizontal edges are discarded, and an edge without a partner waits in the polygon's pool of unpaired edges;
4. fills each pair's span wherever the plane's depth beats the stored depth;
5. steps the pairs down one row. An edge that runs out is spliced onto a pooled continuation edge, and the other edge's step is rolled back;
6. retires finished pairs and polygons.

The colour-channel helpers and the vertex and texture records are modelled too.

The files follow the source:
- `helper_tools.dfy` (module `HelperTools`): the plane helpers, Cohen-Sutherland clipping, the two `clipUV` overloads and `SWAP`.
- `geometry.dfy` (module `Geometry`): `colorDiv`, `colorAdd`, `colorCpy`, `Vertice` and `Texture`.
- `zbuffer_records.dfy` (module `ZBufferRecords`): the records `ZEdge`, `ActiveEdgePair` and `ZPolygon`, plus `generateEdge` and `generateEdgePair`.
- `edge_pairing.dfy` (module `EdgePairing`): `insertActiveEdgePairs`, the pairing of the edges that start on a row.
- `pair_advance.dfy` (module `PairAdvance`): the value-level pair update of `drawEdgePair`, covering stepping, stalling and splicing.
- `zbuffer_scanline.dfy` (module `ZBufferScanLine`): the class `ZBufferScanLine` with its tables, arenas, depth buffer and frame. It includes `insertPolygon`, `draw`, `drawLine`, `drawEdgePair` and `reset`.

Edges and polygons live in arenas (sequences held by the class) and are referred to by index. The one edge objects that `edges`, `unpairedEdges` and the active pairs share in the source are therefore one index in the model. The frame is an array of four-byte pixels, and the frame pointer is a pixel offset into it.

The class invariant `Valid` holds after every public operation. It says:
- every table refers to polygons of the arena;
- every pool edge is a sloped edge its polygon owns;
- every active pair holds two sloped edges;
- every edge's x stays on the segment it came from, which keeps every span column inside the row.

## Model

| member | source | states |
|---|---|---|
| HelperTools.ComputePlane | include/HelperTools.h:16-19 | the plane has the normal as its first three coefficients and passes through the point |
| HelperTools.ComputeZ | include/HelperTools.h:21-29 | 0 when the plane's z coefficient is below FLT_EPS, otherwise the z that puts (x, y, z) on the plane |
| HelperTools.ComputeY | include/HelperTools.h:31-39 | 0 when the y coefficient is below FLT_EPS, otherwise the y that puts (x, y, z) on the plane |
| HelperTools.ComputeX | include/HelperTools.h:41-49 | 0 when the x coefficient is below FLT_EPS, otherwise the x that puts (x, y, z) on the plane |
| HelperTools.DepthOfPlanePoint | include/HelperTools.h:16-29 | the depth of the plane through p at (p.x, p.y) is p.z whenever the normal's z is at least FLT_EPS |
| HelperTools.YOfPlanePoint | include/HelperTools.h:31-39 | computeY on the plane through p gives back p.y whenever the normal's y is at least FLT_EPS |
| HelperTools.XOfPlanePoint | include/HelperTools.h:41-49 | computeX on the plane through p gives back p.x whenever the normal's x is at least FLT_EPS |
| HelperTools.ComputeOutCode | include/HelperTools.h:66-91 | LEFT iff x < 0; RIGHT iff not LEFT and x > width-1; BOTTOM iff y < 0; TOP iff not BOTTOM and y > height-1; the code is 0 exactly for points of the rectangle |
| HelperTools.ClipPoint | include/HelperTools.h:128-155 | one pass moves the chosen outside endpoint onto the line of the side it violates, which clears that side's bit; the point stays in the endpoints' bounding box; the pass lowers the clip rank |
| HelperTools.ClipLoop | include/HelperTools.h:107-172 | the clip loop on values, recursing on the clip rank: an accepted segment lies inside the rectangle, and a segment already inside is accepted unchanged |
| HelperTools.ClipPass | include/HelperTools.h:122-170 | one pass of the loop on values: the endpoint outside (the first one if both are) moves to ClipPoint and the loop goes on; any segment it ends up accepting lies inside |
| HelperTools.ClipPassKeeps | include/HelperTools.h:159-170 | moving the chosen endpoint to its clip point leaves the loop's final result unchanged |
| HelperTools.PassPoint | include/HelperTools.h:129-170 | the statements of one pass compute ClipPoint for the chosen endpoint, lower the clip rank, keep the loop's final result and keep the point in the original bounding box |
| HelperTools.LineClip | include/HelperTools.h:96-173 | the clip on points: a rejected segment is unchanged, z is never changed, an accepted one lies inside, and an inside one is accepted unchanged |
| HelperTools.CohenSutherlandLineClip | include/HelperTools.h:96-173 | computes LineClip: on rejection the points are unchanged; z is never changed; on acceptance both points are inside the rectangle and in the original bounding box; two inside points are accepted unchanged; the loop terminates for every rectangle |
| HelperTools.WrappedUnitRange | include/HelperTools.h:198-211 | the wrapped value of clipUV(float) lies in [0, 1], equals the input exactly when the input is in [0, 1], and differs from it by an integer (with WrappedUnitShift) |
| HelperTools.WrappedUnitShift | include/HelperTools.h:198-211 | the wrapped value minus the input is an integer |
| HelperTools.WrappedUnitIdempotent | include/HelperTools.h:198-211 | wrapping twice is wrapping once |
| HelperTools.ClipUV | include/HelperTools.h:198-211 | the two loops compute the wrapped value |
| HelperTools.WrappedIndexInRange | include/HelperTools.h:175-196 | a coordinate wrapped against size-1 lands in [0, size-1]; an in-range one is unchanged, a negative c becomes size-1+c, one above size-1 becomes c-size |
| HelperTools.ClipUVIntAsWritten | include/HelperTools.h:175-196 | clipUV(int&, int&) as written: u wraps against width, v is tested against width-1 and shifted by height |
| HelperTools.ClipUVIntAsWrittenBreaksRange | include/HelperTools.h:192-195 | on a 2 x 4 texture the in-range v = 2 comes back as -2 |
| HelperTools.ClipUVInt | include/HelperTools.h:175-196 | with v tested against height-1: in-range coordinates are unchanged and coordinates within one period land in range |
| HelperTools.Swap | include/HelperTools.h:6 | SWAP exchanges its two operands |
| HelperTools.SwapTwice | include/HelperTools.h:6 | swapping twice restores both operands |
| Geometry.Wrap | include/Geometry.h:10-12 | the byte an int is stored as is the int modulo 256 |
| Geometry.TruncDiv | include/Geometry.h:10-12 | C++ integer division, equal to Euclidean division on non-negative operands |
| Geometry.TruncDivShrinks | include/Geometry.h:10-12 | a truncated quotient is never larger in magnitude than the dividend and is negative only when exactly one operand is |
| Geometry.ColorDiv | include/Geometry.h:8-13 | channels 0..2 become themselves divided by num, wrapped to a byte; the rest are unchanged; for positive num no channel grows |
| Geometry.DividedByteShrinks | include/Geometry.h:8-13 | a byte divided by a positive number is at most the byte |
| Geometry.ColorAdd | include/Geometry.h:15-20 | dst[2] += src[0], dst[1] += src[1], dst[0] += src[2], each modulo 256, in the source's order even when dst and src alias; channels from 3 on are unchanged |
| Geometry.CopiedChannels | include/Geometry.h:29-48 | without flip channels 0..2 are copied verbatim, with flip in reverse order; channel 3 is taken from src exactly when alpha is set and kept otherwise |
| Geometry.FlipTwice | include/Geometry.h:33-35 | flip-copying twice restores the original RGB order |
| Geometry.ColorCpy | include/Geometry.h:29-48 | the unscaled colorCpy leaves dst as Copied describes, and for aliased arrays as the source's store order leaves it |
| Geometry.Vertice.constructor | include/Geometry.h:95-96 | a default vertex is coloured {0, 0, 0, 255} (the initialiser at line 117) |
| Geometry.Vertice.WithColor | include/Geometry.h:98-105 | a vertex built from a float colour stores each channel converted to a byte |
| Geometry.Texture.constructor | include/Geometry.h:132-136 | size == height * width * channel |
| ZBufferRecords.NewPolygon | include/ZBufferScanLine.h:53-73 | a fresh polygon is untextured and owns no edges and no unpaired edges |
| ZBufferRecords.TruncDropsFraction | src/ZBufferScanLine.cpp:552-553 | static_cast<int> drops the fraction: for r >= 0 the result is the whole number in (r - 1, r], for r < 0 the one in [r, r + 1) |
| ZBufferRecords.TruncProperties | src/ZBufferScanLine.cpp:552-553 | static_cast<int> is monotone and rounds toward zero |
| ZBufferRecords.TruncWithin | src/ZBufferScanLine.cpp:552-553 | truncating a value of [0, bound] gives a row of [0, bound] |
| ZBufferRecords.Upper | src/ZBufferScanLine.cpp:534-539 | after the swap p1 is an endpoint whose y is the larger one, the first on a tie |
| ZBufferRecords.Lower | src/ZBufferScanLine.cpp:534-539 | after the swap p2 is the other endpoint, whose y is the smaller one |
| ZBufferRecords.GenerateEdge | src/ZBufferScanLine.cpp:523-588 | the edge starts at the endpoint with the larger y; dy = trunc(top y) - trunc(bottom y) + 1 >= 1; an edge one row tall keeps the ending x in dx; top and bottom become the max and min of their old values and the edge's rows |
| ZBufferRecords.EdgeReachesEnd | src/ZBufferScanLine.cpp:577-580 | for dy != 1, dx is the slope: dy steps of dx lead from the upper x exactly to the lower x; an edge is stepped dy - 1 times, so on its last row it is one step short of the lower x |
| ZBufferRecords.GeneratedEdgeOk | src/ZBufferScanLine.cpp:523-588 | an edge between points of the clipped rectangle satisfies the edge invariant (its x lies on its segment) |
| ZBufferRecords.EdgeXInRange | src/ZBufferScanLine.cpp:271-272 | an edge satisfying the invariant has its x in [0, width-2] and between its endpoints, and a sloped edge's step is at most width-2 |
| ZBufferRecords.StepEdge | src/ZBufferScanLine.cpp:333-343 | an edge with dy > 0 loses one row and moves x by dx; one with dy <= 0 stalls unchanged |
| ZBufferRecords.RollBack | src/ZBufferScanLine.cpp:364-365 | a roll-back gives the row back and moves x back by dx, keeping the other fields |
| ZBufferRecords.RollBackUndoesStep | src/ZBufferScanLine.cpp:333-365 | rolling back a step that moved the edge restores it exactly |
| ZBufferRecords.StepKeepsEdgeOk | src/ZBufferScanLine.cpp:333-343 | stepping a sloped edge keeps its x on its segment and leaves it with fewer rows than it started with |
| ZBufferRecords.RollBackKeepsEdgeOk | src/ZBufferScanLine.cpp:364-365 | rolling back a stepped sloped edge keeps its x on its segment |
| ZBufferRecords.StepAt | src/ZBufferScanLine.cpp:333-343 | stepping one edge of the arena changes that edge alone |
| ZBufferRecords.GenerateEdgePair | src/ZBufferScanLine.cpp:590-619 | the pair refers to its two edges and polygon, starts at the edges' depths, and takes its depth steps from the plane (0 when plane.z < ZERO_LIMIT) |
| ZBufferRecords.DepthStepX | src/ZBufferScanLine.cpp:601 | dz_x is 0 when plane.z < ZERO_LIMIT, and otherwise the value with plane.x + dz_x * plane.z == 0 |
| ZBufferRecords.DepthStepY | src/ZBufferScanLine.cpp:602 | dz_y is 0 when plane.z < ZERO_LIMIT, and otherwise the value with dz_y * plane.z == plane.y |
| ZBufferRecords.DepthStepsFollowPlane | src/ZBufferScanLine.cpp:601-602 | for a plane with z >= ZERO_LIMIT, dz_x is the depth change of one column and dz_x * dx + dz_y the change from one row to the next along an edge |
| ZBufferRecords.SwapOrders | src/ZBufferScanLine.cpp:512-517 | after the conditional swap, left.x <= right.x + ZERO_LIMIT, with ties within ZERO_LIMIT going to the smaller dx |
| ZBufferRecords.Filter | src/ZBufferScanLine.cpp:241-262 | remove_if keeps a subsequence, in order, of at most the original length |
| ZBufferRecords.FilterMembership | src/ZBufferScanLine.cpp:241-262 | an element survives remove_if exactly when it was present and is kept |
| ZBufferRecords.FilterMembers | src/ZBufferScanLine.cpp:241-262 | the same for every element at once |
| ZBufferRecords.FilterAppend | src/ZBufferScanLine.cpp:241-262 | filtering distributes over concatenation, so survivors keep their relative order |
| ZBufferRecords.FilterMultiset | src/ZBufferScanLine.cpp:241-262 | filtering never adds an element |
| EdgePairing.Remove | src/ZBufferScanLine.cpp:442 | erase removes exactly the element at the position and shifts the rest down |
| EdgePairing.CollectEdgesAt | src/ZBufferScanLine.cpp:403-411 | the edges collected are exactly the polygon's edges whose y is the line, in order |
| EdgePairing.SortByXDesc | src/ZBufferScanLine.cpp:413-417 | the sort is a permutation into non-increasing x |
| EdgePairing.InsertDescAdds | src/ZBufferScanLine.cpp:413-417 | inserting into the sorted list adds exactly that edge |
| EdgePairing.InsertDescOrdered | src/ZBufferScanLine.cpp:413-417 | inserting into a list sorted by descending x keeps it sorted |
| EdgePairing.FirstNear | src/ZBufferScanLine.cpp:435-450 | the first position whose edge begins within half a pixel of x, or -1 when there is none |
| EdgePairing.FindNearX | src/ZBufferScanLine.cpp:435-450 | the search loop finds that first position |
| EdgePairing.FirstOnRow | src/ZBufferScanLine.cpp:490-503 | the first position at or after from whose edge starts on row y, or -1 when no edge from there on does |
| EdgePairing.FindSameRow | src/ZBufferScanLine.cpp:490-503 | the loop over the pool finds FirstOnRow: the first pool position whose edge starts on the row, or -1 when there is none |
| EdgePairing.Partner | src/ZBufferScanLine.cpp:431-484 | the partner search on values: search from x for the first edge within half a pixel; a horizontal match is dropped and the search goes on from its ending x, a horizontal left edge is dropped and the match becomes the edge to pair from the left edge's ending x; the edge kept and its partner are sloped |
| EdgePairing.LastSearch | src/ZBufferScanLine.cpp:433-479 | the x and the list of the last search of the do-while, a sub-multiset of the list |
| EdgePairing.PartnerRule | src/ZBufferScanLine.cpp:435-455 | a partner found is the first edge of the last searched list within half a pixel of the x searched from, and that list loses exactly it; an edge kept without partner had no such edge in the list |
| EdgePairing.SearchFrom | src/ZBufferScanLine.cpp:468-475 | the last search starts from the popped edge's x or from the ending x of a horizontal edge that was dropped |
| EdgePairing.PartnerStep | src/ZBufferScanLine.cpp:433-479 | one round of the do-while conserves the edges, throws only horizontal edges away, shrinks the work left and keeps Partner of the state equal to Partner of the start (or has reached it) |
| EdgePairing.SkipHorizontal | src/ZBufferScanLine.cpp:457-477 | a horizontal match is thrown away and the search goes on from its ending x; a horizontal left edge is thrown away, the match takes its place and the search goes on from the left edge's ending x; two sloped edges are left as a pair with x unchanged |
| EdgePairing.FindPartner | src/ZBufferScanLine.cpp:431-484 | the do-while computes Partner for the popped edge from its own x; a sloped left edge (if any) with a sloped partner (if any), every edge conserved and only horizontal ones thrown away, and the partner rule holds for what it returns |
| EdgePairing.TakeSameRow | src/ZBufferScanLine.cpp:488-503 | the pool loses exactly the edge at FirstOnRow, the first that starts on the row, or stays as it is when none does |
| EdgePairing.OrderedPair | src/ZBufferScanLine.cpp:512-519 | the pair made of two edges puts them in left-to-right order and is the one generateEdgePair builds |
| EdgePairing.Settle | src/ZBufferScanLine.cpp:486-519 | settling on values: an edge with a partner becomes a pair and the pool is unchanged; one without takes the first pooled edge on its row (a pair is made exactly when the pool has an edge on that row); otherwise it is appended to the pool |
| EdgePairing.SettleEdge | src/ZBufferScanLine.cpp:486-519 | computes Settle; nothing is lost and the pair made is ordered and built from sloped edges of the row or the pool |
| EdgePairing.SettleFromPool | src/ZBufferScanLine.cpp:488-510 | computes Settle for an edge without a partner: the first pooled edge on its row becomes the partner, or the edge joins the pool |
| EdgePairing.Round | src/ZBufferScanLine.cpp:422-519 | one round on values: Partner for the popped edge from its x, then Settle for the edge kept; an edge the search dropped leaves the pool unchanged |
| EdgePairing.Pairing | src/ZBufferScanLine.cpp:419-520 | the pairing loop on values: rounds for the last candidate until none is left; the pairs come out in the order they are made |
| EdgePairing.PairRound | src/ZBufferScanLine.cpp:420-520 | one round of the pairing loop computes Round, and accounts for the popped edge and for every edge it touched |
| EdgePairing.PairEdges | src/ZBufferScanLine.cpp:419-520 | the loop computes Pairing, so every pair follows the partner rule; each edge of the row ends up in exactly one place: a new pair, discarded as horizontal (dy == 1), or the pool; every pair is ordered and made from the row's or the pool's sloped edges |
| EdgePairing.PolygonPairing | src/ZBufferScanLine.cpp:400-521 | insertActiveEdgePairs for one polygon on values: Pairing of its edges starting at the row, sorted by descending x, against its pool |
| EdgePairing.EdgesAt | src/ZBufferScanLine.cpp:403-411 | the edges collected for a row are edges of the arena |
| EdgePairing.EdgesAtMembers | src/ZBufferScanLine.cpp:403-411 | the edges collected for a row are exactly those of the polygon's list that start on the row |
| PairAdvance.SlopedByRows | src/ZBufferScanLine.cpp:464 | an edge of the arena whose dy is not 1 is a sloped edge |
| PairAdvance.SpanColumns | src/ZBufferScanLine.cpp:271-272 | start_x is the left edge's x with its fraction dropped; end_x is the right edge's x with its fraction dropped or, when both ends are the same edge, that edge's dx field with its fraction dropped |
| PairAdvance.SpanInRow | src/ZBufferScanLine.cpp:270-280 | for a pair of sloped edges on their segments, start_x lies in [0, width-2]; end_x <= width-2, and >= 0 when the two edges differ; a shared edge with dx < 0 gives end_x < 0, which the source rejects as a bad pair (end_x may also be below start_x) |
| PairAdvance.StepPair | src/ZBufferScanLine.cpp:320-343 | both edges step (one edge twice when both ends share it), nothing else in the arena changes, and the pair keeps its edges, polygon and depth steps |
| PairAdvance.StepDepths | src/ZBufferScanLine.cpp:322-325 | only z_l and z_r change, and the depth across the span changes by dz_x times the difference of the two edges' x steps |
| PairAdvance.StepPairKeepsArena | src/ZBufferScanLine.cpp:332-343 | stepping a pair's edges keeps the edge invariant and leaves each with fewer rows than it started with |
| PairAdvance.StepPairFollowsPlane | src/ZBufferScanLine.cpp:322-343 | when both end depths are the plane's depths at their edges, they still are one row down |
| PairAdvance.LeftContinues | src/ZBufferScanLine.cpp:349-356 | the left splice fires exactly when the left edge has dy <= 0, the right one dy >= 0, and some pooled edge starts less than half a pixel from the left edge's x |
| PairAdvance.RightContinues | src/ZBufferScanLine.cpp:374-381 | the mirror image for the right edge |
| PairAdvance.SpliceLeft | src/ZBufferScanLine.cpp:349-372 | when the left edge has ended and a pooled edge starts within half a pixel, the pair takes it with its depth, the pool loses exactly that edge and the right edge is rolled back with its old depth; otherwise nothing changes |
| PairAdvance.SpliceRight | src/ZBufferScanLine.cpp:374-397 | the mirror image for the right edge |
| PairAdvance.AdvancePair | src/ZBufferScanLine.cpp:320-397 | the update keeps the pair's polygon and depth steps and keeps every index in the arena |
| PairAdvance.AtMostOneSplice | src/ZBufferScanLine.cpp:349-397 | after a left splice the right splice cannot fire, because the rolled-back right edge has rows left |
| PairAdvance.AdvanceKeepsInvariant | src/ZBufferScanLine.cpp:320-397 | the whole update keeps the arena, pair and pool invariants, and the pool loses at most one edge and gains none |
| PairAdvance.SpliceLeftKeeps | src/ZBufferScanLine.cpp:349-372 | a left splice keeps the invariants |
| PairAdvance.SpliceRightKeeps | src/ZBufferScanLine.cpp:374-397 | a right splice keeps the invariants |
| PairAdvance.PoolShrinks | src/ZBufferScanLine.cpp:361 | erasing one pooled edge leaves a pool of sloped edges, one shorter, with nothing new in it |
| ZBufferScanLine.EmptyStateOk | src/ZBufferScanLine.cpp:171-195 | empty arenas with empty row tables satisfy the invariant |
| ZBufferScanLine.AppendKeepsState | src/ZBufferScanLine.cpp:761-762 | appending a polygon that owns exactly the new edges to its top row's table keeps the invariant |
| ZBufferScanLine.EdgeOfAnyRange | src/ZBufferScanLine.cpp:523-588 | the edge generateEdge builds does not depend on the row range it widens |
| ZBufferScanLine.RowRange | src/ZBufferScanLine.cpp:744-754 | for edges in the clipped rows, top == -1 and bottom == height exactly when no edge was generated, and otherwise 0 <= bottom <= top <= height-2 |
| ZBufferScanLine.AddedEdgeOk | src/ZBufferScanLine.cpp:732-733 | an edge between clipped points keeps the edge invariant and the row range |
| ZBufferScanLine.ClipSide | src/ZBufferScanLine.cpp:28-66 | clipEdge on values: LineClip of the side, with every moved endpoint put on the depth plane; a rejected side is unchanged, an accepted one inside, an inside one accepted unchanged |
| ZBufferScanLine.ClipEdge | src/ZBufferScanLine.cpp:28-66 | computes ClipSide: a rejected side is unchanged; an accepted one is inside the rectangle; an endpoint moved by clipping takes the plane's depth there and an unmoved one keeps its z; an inside side is accepted unchanged |
| ZBufferScanLine.AppendEdge | src/ZBufferScanLine.cpp:732-733 | appending a side's edge keeps the loop invariant |
| ZBufferScanLine.DistSq | src/ZBufferScanLine.cpp:718 | the squared length of thisBegin - lastEnd is never negative and is 0 between equal points |
| ZBufferScanLine.Gap | src/ZBufferScanLine.cpp:718-722 | at most one connecting edge, and none between coinciding points |
| ZBufferScanLine.CloseGap | src/ZBufferScanLine.cpp:718-722 | the edges grow by Gap: a gap edge is appended exactly when the points are more than half a pixel apart, and the row range is kept otherwise |
| ZBufferScanLine.KeepSide | src/ZBufferScanLine.cpp:696-733 | an accepted side appends, after the gap edge from the last kept end when one was kept before, its own edge; the first kept side records where the outline begins |
| ZBufferScanLine.SideStep | src/ZBufferScanLine.cpp:675-735 | one pass of the edge loop: clipping side i and keeping it when accepted moves the loop state from SidesDone of i sides to SidesDone of i + 1, keeping the edge invariant and the row range |
| ZBufferScanLine.PolygonSides | src/ZBufferScanLine.cpp:675-735 | one edge per side with nothing clipped: edge k runs from vertex k to the next one around the polygon |
| ZBufferScanLine.SideKept | src/ZBufferScanLine.cpp:696-733 | keeping a side marks the outline as begun, makes the side's end the last end and adds at least its edge |
| ZBufferScanLine.SidesDoneBegun | src/ZBufferScanLine.cpp:675-735 | after i sides nothing has begun exactly when every one of them was rejected, and then no edge was made; once begun there is an edge |
| ZBufferScanLine.OutlineEmpty | src/ZBufferScanLine.cpp:675-742 | the outline is empty exactly when clipping rejects every side: no closing edge is made then |
| ZBufferScanLine.SidesDoneInside | src/ZBufferScanLine.cpp:675-735 | for a polygon inside the frame the first i sides give their own edges in order, begun at vertex 0 and last ending at the vertex after side i-1 |
| ZBufferScanLine.OutlineInside | src/ZBufferScanLine.cpp:675-742 | for a polygon inside the frame the closing edge is never made and the outline is one edge per side |
| ZBufferScanLine.GenerateEdges | src/ZBufferScanLine.cpp:674-742 | the edge loop and the closing edge compute Outline: each accepted side's edge in order, preceded by a gap edge from the last kept end when it is more than half a pixel away, then the closing edge from the last end to the first begin when those are more than half a pixel apart; the edge invariant and the row range hold; inside the frame the result is PolygonSides |
| ZBufferScanLine.Indices | src/ZBufferScanLine.cpp:733 | the indices of the edges a polygon appends to the arena |
| ZBufferScanLine.RowsDown | src/ZBufferScanLine.cpp:201 | the rows height-1 down to 0 |
| ZBufferScanLine.SpanDepth | src/ZBufferScanLine.cpp:283-313 | the depth the scan loop reaches at column x is z_l + (x - start_x) * dz_x |
| ZBufferScanLine.SpanKeepsConsistent | src/ZBufferScanLine.cpp:293-318 | a span never lowers a stored depth, and a column still at the empty depth still shows the background |
| ZBufferScanLine.SpanCellsDrawn | src/ZBufferScanLine.cpp:293-318 | the per-column state the scan loop leaves is the drawn span |
| ZBufferScanLine.AdvanceOnValues | src/ZBufferScanLine.cpp:320-397 | the statement-by-statement pair update computes AdvancePair |
| ZBufferScanLine.SpliceLeftOnValues | src/ZBufferScanLine.cpp:349-372 | the left-splice statements compute SpliceLeft |
| ZBufferScanLine.SpliceRightOnValues | src/ZBufferScanLine.cpp:374-397 | the right-splice statements compute SpliceRight |
| ZBufferScanLine.AdvanceKeepsState | src/ZBufferScanLine.cpp:320-397 | advancing one pair keeps the rasteriser's invariant |
| ZBufferScanLine.PairingKeepsState | src/ZBufferScanLine.cpp:400-521 | pairing a polygon's edges keeps the invariant: new pairs hold sloped edges and the pool holds sloped edges the polygon owns |
| ZBufferScanLine.OwnershipKeepsState | src/ZBufferScanLine.cpp:236-239 | changing only the polygons' counters keeps the invariant |
| ZBufferScanLine.SubPairsKeepState | src/ZBufferScanLine.cpp:241-254 | keeping a subset of the pairs keeps the invariant |
| ZBufferScanLine.ClearRow | src/ZBufferScanLine.cpp:212-213 | every depth of the row becomes -max float and every pixel of the row the background colour (the frame becomes ClearedRow); the rest of the frame is unchanged |
| ZBufferScanLine.ClearedRow | src/ZBufferScanLine.cpp:213 | the frame with the row's pixels set to the background colour, of the same size |
| ZBufferScanLine.ScanSpan | src/ZBufferScanLine.cpp:293-318 | a column from start_x to end_x is written exactly when its depth is strictly greater than the stored one: the depth is replaced and the pixel filled (left as it is for a textured polygon); all other depths and pixels are unchanged; the result is SpanDepths and SpanFrame |
| ZBufferScanLine.SpanDepths | src/ZBufferScanLine.cpp:293-318 | the row's depths after a span, column by column, of the same size |
| ZBufferScanLine.SpanFrame | src/ZBufferScanLine.cpp:293-318 | the frame after a span: the row's pixels column by column, every other pixel kept |
| ZBufferScanLine.SpanFunctionsDrawn | src/ZBufferScanLine.cpp:293-318 | SpanDepths and SpanFrame are a drawn span, as ScanSpan states it |
| ZBufferScanLine.SpanCellsAre | src/ZBufferScanLine.cpp:293-318 | the column-wise state the scan loop leaves is SpanDepths and SpanFrame |
| ZBufferScanLine.DrawnPair | src/ZBufferScanLine.cpp:265-398 | drawEdgePair on values: a pair with start_x < 0 or end_x < 0 changes nothing; otherwise the span is drawn and the pair, its edges and its polygon's pool advance; the number of pairs is kept |
| ZBufferScanLine.DrawnPairs | src/ZBufferScanLine.cpp:230-234 | the loop over the pairs on values: drawEdgePair for pairs 0 to n - 1 in order, each on the state the ones before it left |
| ZBufferScanLine.PairActive | src/ZBufferScanLine.cpp:224-228 | the loop over the active polygons on values: each polygon in turn, with the pool it has by then, pairs its edges; the new pairs come out in order and the arena of polygons keeps its size |
| ZBufferScanLine.PairActiveExtends | src/ZBufferScanLine.cpp:224-228 | pairing one more active polygon appends its pairs after those of the polygons before it and sets its pool |
| ZBufferScanLine.RowDrawn | src/ZBufferScanLine.cpp:211-234 | the row as drawLine draws it before the clean-ups: cleared, the active polygons paired (new pairs after the old ones), then every pair drawn in order |
| ZBufferScanLine.KeepPair | src/ZBufferScanLine.cpp:243-253 | a pair of arena edges survives the clean-up exactly when one of its edges still has dy > 0 |
| ZBufferScanLine.KeepActive | src/ZBufferScanLine.cpp:258-261 | an active polygon of the arena survives exactly when its dy is not 0 |
| ZBufferScanLine.CountedDownPolygons | src/ZBufferScanLine.cpp:236-239 | each polygon's dy drops by the number of times it is active, nothing else changes |
| ZBufferScanLine.CountedDownIs | src/ZBufferScanLine.cpp:236-239 | that count-down has exactly one result |
| ZBufferScanLine.LineDrawn | src/ZBufferScanLine.cpp:208-263 | drawLine on values: RowDrawn, then the count-down and both clean-ups; the arena of polygons keeps its size |
| ZBufferScanLine.LineDrawnCleans | src/ZBufferScanLine.cpp:241-262 | after drawLine no finished pair and no finished polygon is left active |
| ZBufferScanLine.FilterKeeps | src/ZBufferScanLine.cpp:241-262 | every survivor of remove_if is one the predicate keeps |
| ZBufferScanLine.RowsDrawn | src/ZBufferScanLine.cpp:197-206 | the draw loop on values: drawLine for each row of the list in turn, each on the state the rows before it left |
| ZBufferScanLine.LastRowDrawn | src/ZBufferScanLine.cpp:200-204 | drawLine for the last row of the list at its frame offset, after the rows before it |
| ZBufferScanLine.RowsDrawnStep | src/ZBufferScanLine.cpp:200-204 | drawing one more row is drawLine at that row's offset on the state the rows before it left |
| ZBufferScanLine.ClearTables | src/ZBufferScanLine.cpp:178-192 | every row's table becomes empty and the number of rows is kept |
| ZBufferScanLine.PushAll | src/ZBufferScanLine.cpp:216-222 | the active table gains the row's polygons at its end, in order |
| ZBufferScanLine.CountDown | src/ZBufferScanLine.cpp:236-239 | each polygon's dy drops by the number of times it is active and nothing else changes |
| ZBufferScanLine.KeepIf | src/ZBufferScanLine.cpp:241-262 | the erase-remove_if loop keeps exactly the kept elements, in order |
| ZBufferScanLine.PairPolygon | src/ZBufferScanLine.cpp:400-521 | the pairing of one polygon on one line: collect, sort by descending x, pair |
| ZBufferScanLine.RowOffset | src/ZBufferScanLine.cpp:199-204 | every row's offset lies inside a frame of width * height pixels |
| ZBufferScanLine.ZBufferScanLine.constructor | src/ZBufferScanLine.cpp:156-162 | one empty table per row, empty active tables, a depth buffer of width entries, no polygons, index and frame offset 0 |
| ZBufferScanLine.ZBufferScanLine.Reset | src/ZBufferScanLine.cpp:171-195 | both active tables and every row's table are empty, the counter is 0 and no polygon or edge is left; the result does not depend on the state before, so resetting twice is resetting once |
| ZBufferScanLine.ZBufferScanLine.SetMVP | include/ZBufferScanLine.h:100-103 | stores the matrix; every other field, table and arena keeps its value |
| ZBufferScanLine.ZBufferScanLine.SetViewDir | include/ZBufferScanLine.h:105-108 | stores the direction; every other field, table and arena keeps its value |
| ZBufferScanLine.ZBufferScanLine.GetNumPolygon | include/ZBufferScanLine.h:119-122 | returns the number of polygons inserted since the last reset, changing nothing |
| ZBufferScanLine.ZBufferScanLine.GetLineFrameBuffer | include/ZBufferScanLine.h:110-113 | returns the frame together with the current row's offset |
| ZBufferScanLine.ZBufferScanLine.AddPolygon | src/ZBufferScanLine.cpp:752-762 | the polygon joins its top row's table, its edges join the arena and the counter grows by one |
| ZBufferScanLine.ZBufferScanLine.InsertEdges | src/ZBufferScanLine.cpp:744-762 | no edge leaves everything as it was; otherwise the edges join the arena and a polygon with the plane, colour, texture flag, dy = top - bottom + 1 and exactly those edges joins the table of its top row |
| ZBufferScanLine.ZBufferScanLine.InsertPolygon | src/ZBufferScanLine.cpp:621-763 | a back-facing polygon changes nothing; a facing one appends Outline of its projected vertices to the arena, or changes nothing when the outline is empty; otherwise it joins the table of its top row with its plane, colour, texture flag and dy = top - bottom + 1, and the counter grows by exactly 1; a facing polygon inside the frame gets PolygonSides, one edge per side |
| ZBufferScanLine.ZBufferScanLine.AdvanceActivePair | src/ZBufferScanLine.cpp:320-397 | pair k, its edges and its polygon's pool are updated as AdvancePair states, and nothing else changes |
| ZBufferScanLine.ZBufferScanLine.DrawEdgePair | src/ZBufferScanLine.cpp:265-398 | a pair with start_x < 0 or end_x < 0 changes nothing; otherwise its span is drawn as ScanSpan states and the pair advances; the new state is DrawnPair of the old one |
| ZBufferScanLine.ZBufferScanLine.DrawPairInRow | src/ZBufferScanLine.cpp:232-233 | one pair drawn within the row: the state becomes DrawnPair of the old one, the row stays consistent and only pools change among the polygons |
| ZBufferScanLine.ZBufferScanLine.DrawAllPairs | src/ZBufferScanLine.cpp:230-234 | every pair is drawn in order: the new state is DrawnPairs of the old one over all pairs; the row stays consistent, the rest of the frame is unchanged and only the pools change among the polygons |
| ZBufferScanLine.ZBufferScanLine.InsertActiveEdgePairs | src/ZBufferScanLine.cpp:400-521 | the new pairs are appended after the old ones and only the polygon's pool changes, as PairEdges states |
| ZBufferScanLine.ZBufferScanLine.InsertAllPairs | src/ZBufferScanLine.cpp:224-228 | every active polygon's edges on the line are paired in order: the new pairs of PairActive are appended after the old ones and the polygons become PairActive's |
| ZBufferScanLine.ZBufferScanLine.ActivatePolygons | src/ZBufferScanLine.cpp:215-222 | the row's polygons join the end of the active table and nothing else changes |
| ZBufferScanLine.ZBufferScanLine.CountDownActive | src/ZBufferScanLine.cpp:236-239 | every active polygon's dy drops by one per occurrence in the active table |
| ZBufferScanLine.ZBufferScanLine.RetireFinished | src/ZBufferScanLine.cpp:241-262 | pairs whose two edges both have dy <= 0 and polygons whose dy is 0 are removed; the survivors keep their order |
| ZBufferScanLine.ZBufferScanLine.ClearAndDrawRow | src/ZBufferScanLine.cpp:211-234 | clears the row, activates the row's polygons, pairs and draws: the new state is RowDrawn of the old one |
| ZBufferScanLine.ZBufferScanLine.DrawLine | src/ZBufferScanLine.cpp:208-263 | records the row; the depths, frame and arena are RowDrawn's; the surviving pairs are RowDrawn's pairs filtered by the finished-pair test; each active polygon's dy drops by one per occurrence; no finished pair or polygon survives, and only the row's pixels change |
| ZBufferScanLine.ZBufferScanLine.DrawRow | src/ZBufferScanLine.cpp:200-204 | one pass of draw's loop: the state becomes LineDrawn of the old one for the row at its offset, then the frame offset moves one row down; no pixel outside the row changes |
| ZBufferScanLine.ZBufferScanLine.DrawNextRow | src/ZBufferScanLine.cpp:200-204 | drawing the next row extends RowsDrawn of the rows drawn so far by that row |
| ZBufferScanLine.ZBufferScanLine.Draw | src/ZBufferScanLine.cpp:197-206 | the new state is RowsDrawn of the old one over the rows height-1 down to 0: each row drawn exactly once, in that order; no pixel past width * height is touched |

## Left out

- Textures: `sampleTexture2D`, the texture-coordinate fields and their perspective updates (src/ZBufferScanLine.cpp:287-291, 315-318, 327-330) and the texture part of `clipEdge` (43-63) are floating-point texel addressing through functions that none of ZBufferScanLine.cpp, ZBufferScanLine.h, HelperTools.h and Geometry.h defines. A textured polygon's depth is written, but its pixel is left as it was. That is exact only for an empty texture list.
- Projection: the glm matrix projection and `computeNormal`'s `normalize` are floating-point numerics. `InsertPolygon` takes the projected vertices and the normal as parameters, so the vertex lookup of the face is not modelled.
- `glm::length(a - b) > SAME_PIXEL_LIMIT` is modelled exactly as a squared distance above 0.25.
- IEEE floats are modelled as reals and `int` as unbounded integers. There is no rounding, no float-to-int overflow and no 32-bit wrap-around. `static_cast<int>` is modelled as truncation toward zero.
- `ZERO_LIMIT` and `fillColor` are defined by none of ZBufferScanLine.cpp, ZBufferScanLine.h, HelperTools.h and Geometry.h. Both become constructor parameters: a positive real, and a total function from the old pixel, the colour and the flip flag to the new pixel. The two-argument call at src/ZBufferScanLine.cpp:307 is modelled as flip = false. `addColor` and `divideColor` are used only by `sampleTexture2D`, which is left out.
- `InsertPolygon`: the polygon's colour field starts indeterminate in the source, and the model passes [0, 0, 0, 0] for it. The source also leaves `_numPolygon` and `_index` uninitialised in the constructor, and the model starts them at 0. `firstBegin` and `lastEnd` start at the origin.
- `new`/`delete` and the `ZPolygon` destructor (include/ZBufferScanLine.h:59-65): there is no freeing. Ownership is modelled as sequence membership: a polygon's pool is a subset of its edges.
- The null pointers of a fresh `ActiveEdgePair` (include/ZBufferScanLine.h:38-48): pairs exist only as values built by `GenerateEdgePair`.
- `SortByXDesc`: it states the permutation and the descending order. It does not state the order of ties, which `std::sort` leaves unspecified.
- `near` and `far` are stored but never used by the core.
- The frame is an array of pixels rather than of bytes: the source's `x * 4` byte offset is pixel `x`.
- `cout` diagnostics ("Bad edge", "bad pair") are output only. The bad-pair early return is modelled.
- `generateCorner` (src/ZBufferScanLine.cpp:69-110) is never called.
- `colorMix`, the scaled `colorCpy`, `colorToVec` and `vecToColor` (include/Geometry.h:22-91) are floating-point colour scaling.
- `Geometry.Vertice.WithColor`: it requires each float channel to be in [0, 256), where the conversion to unsigned char is defined. It does not model the default colour argument.
- Geometry.Texture.constructor: takes the channel count explicitly; the default of 4 channels and the element type argument are not modelled.

## Findings

| source | as written | input that shows it | evidently intended | confidence | as-written member | corrected member |
|---|---|---|---|---|---|---|
| include/HelperTools.h:192 | `clipUV(int&, int&, width, height)` tests `v > width - 1` before wrapping v by `height` | width = 2, height = 4, v = 2: an in-range v comes back as -2 | `v > height - 1`, so that an in-range v is unchanged and v lands in [0, height-1] | not executed | HelperTools.ClipUVIntAsWritten, HelperTools.ClipUVIntAsWrittenBreaksRange | HelperTools.ClipUVInt |

/** The scanline Z-buffer rasteriser. Polygons are inserted into per-row tables at their top
    row; drawing walks the rows from the top of the frame down, activating the polygons that
    start on the row, pairing their edges that start there, filling each pair's span where it
    is nearer than what the row's depth buffer already holds, stepping the pairs down one
    row and retiring what has finished.

    Edges and polygons live in arenas (sequences) and are referred to by index, so the
    sharing of one edge between a polygon's edge list, its pool of unpaired edges and an
    active pair is the sharing of one index. The frame buffer is an array of four-byte
    pixels and the frame pointer an offset into it. */
module ZBufferScanLine {
  import opened HelperTools
  import opened ZBufferRecords
  import opened EdgePairing
  import opened PairAdvance

  /** A 4x4 matrix, as sixteen numbers. */
  type Mat4 = m: seq<real> | |m| == 16 witness seq(16, _ => 0.0)

  /** The colour write used for drawing: the new pixel from the old one, the colour written
      and whether red and blue are swapped. */
  type FillColor = (Pixel, Pixel, bool) -> Pixel

  // ---------------------------------------------------------------------------
  // Invariants of the tables
  // ---------------------------------------------------------------------------

  /** Every per-row table and the active polygon table refer to polygons of the arena. */
  ghost predicate TablesOk(tables: seq<seq<nat>>, active: seq<nat>, n: nat)
  {
    (forall row :: 0 <= row < |tables| ==> AllIn(tables[row], n)) && AllIn(active, n)
  }

  /** A polygon owns edges of the arena, and its pending edges are sloped edges it owns. */
  ghost predicate PolygonOk(p: ZPolygon, os: seq<EdgeOrigin>)
  {
    AllIn(p.edges, |os|) && PoolOk(p.unpairedEdges, os)
    && forall e :: e in p.unpairedEdges ==> e in p.edges
  }

  ghost predicate PolygonsOk(ps: seq<ZPolygon>, os: seq<EdgeOrigin>)
  {
    forall q :: 0 <= q < |ps| ==> PolygonOk(ps[q], os)
  }

  /** Every active pair holds two sloped edges and belongs to a polygon of the arena. */
  ghost predicate PairsOk(pairs: seq<ActiveEdgePair>, os: seq<EdgeOrigin>, n: nat)
  {
    forall k :: 0 <= k < |pairs| ==> PairOk(pairs[k], os) && pairs[k].polygon < n
  }

  /** The invariant of the rasteriser's tables. */
  ghost predicate StateOk(edges: seq<ZEdge>, origins: seq<EdgeOrigin>, polygons: seq<ZPolygon>,
                          tables: seq<seq<nat>>, active: seq<nat>, pairs: seq<ActiveEdgePair>,
                          width: int, height: int)
  {
    && |tables| == height
    && ArenaOk(edges, origins, width)
    && TablesOk(tables, active, |polygons|)
    && PolygonsOk(polygons, origins)
    && PairsOk(pairs, origins, |polygons|)
  }

  /** Empty arenas with empty per-row tables satisfy the invariant. */
  lemma EmptyStateOk(tables: seq<seq<nat>>, width: int, height: int)
    requires |tables| == height && forall row :: 0 <= row < |tables| ==> tables[row] == []
    ensures StateOk([], [], [], tables, [], [], width, height)
  {
  }

  /** A pool of sloped edges refers to edges of the arena. */
  lemma PoolInArena(pool: seq<nat>, os: seq<EdgeOrigin>)
    requires PoolOk(pool, os)
    ensures AllIn(pool, |os|)
  {
  }

  /** Appending edges, and the polygon that owns them, keeps the invariant. */
  lemma AppendKeepsState(edges: seq<ZEdge>, origins: seq<EdgeOrigin>, polygons: seq<ZPolygon>,
                         tables: seq<seq<nat>>, active: seq<nat>, pairs: seq<ActiveEdgePair>,
                         width: int, height: int, es: seq<ZEdge>, os: seq<EdgeOrigin>,
                         p: ZPolygon, top: int)
    requires StateOk(edges, origins, polygons, tables, active, pairs, width, height)
    requires ArenaOk(es, os, width) && 0 <= top < height
    requires PolygonOk(p, origins + os)
    ensures StateOk(edges + es, origins + os, polygons + [p],
                    tables[top := tables[top] + [|polygons|]], active, pairs, width, height)
  {
    var os' := origins + os;
    var edges' := edges + es;
    forall i | 0 <= i < |edges'|
      ensures EdgeOk(edges'[i], os'[i], width)
    {
      if i < |edges| {
        assert edges'[i] == edges[i] && os'[i] == origins[i];
      } else {
        assert edges'[i] == es[i - |edges|] && os'[i] == os[i - |edges|];
      }
    }
    forall q | 0 <= q < |polygons|
      ensures PolygonOk(polygons[q], os')
    {
      assert PolygonOk(polygons[q], origins);
      forall i | 0 <= i < |polygons[q].unpairedEdges|
        ensures Sloped(os', polygons[q].unpairedEdges[i])
      {
        assert Sloped(origins, polygons[q].unpairedEdges[i]);
      }
    }
    forall k | 0 <= k < |pairs|
      ensures PairOk(pairs[k], os')
    {
      assert PairOk(pairs[k], origins);
    }
    var tables' := tables[top := tables[top] + [|polygons|]];
    forall row | 0 <= row < |tables'|
      ensures AllIn(tables'[row], |polygons| + 1)
    {
      assert AllIn(tables[row], |polygons|);
    }
    assert (polygons + [p])[|polygons|] == p;
  }

  // ---------------------------------------------------------------------------
  // Edge generation of insertPolygon
  // ---------------------------------------------------------------------------

  /** The squared length of a - b: glm::length(a - b) > 0.5 exactly when this exceeds 0.25. */
  function DistSq(a: Vec3, b: Vec3): (d: real)
    ensures d >= 0.0
    ensures a == b ==> d == 0.0
  {
    (a.x - b.x) * (a.x - b.x) + (a.y - b.y) * (a.y - b.y) + (a.z - b.z) * (a.z - b.z)
  }

  /** The edge generateEdge builds between two points. */
  function EdgeOf(p1: Vec3, p2: Vec3): ZEdge
  {
    GenerateEdge(p1, p2, 0, 0).0
  }

  /** The edge does not depend on the row range being widened. */
  lemma EdgeOfAnyRange(p1: Vec3, p2: Vec3, top: int, bottom: int)
    ensures GenerateEdge(p1, p2, top, bottom).0 == EdgeOf(p1, p2)
  {
  }

  /** The vertex that follows vertex i around a polygon of n vertices: the last one is
      followed by the first. */
  function Next(i: nat, n: nat): nat
    requires i < n
  {
    if i == n - 1 then 0 else i + 1
  }

  /** The first row an edge reaches downwards. */
  function EdgeBottom(e: ZEdge): int
  {
    e.y - e.dy + 1
  }

  /** The top row of a list of edges, or -1 when there is none. */
  function TopRow(es: seq<ZEdge>): int
  {
    if es == [] then -1
    else
      var t := TopRow(es[..|es| - 1]);
      var y := es[|es| - 1].y;
      if y > t then y else t
  }

  /** The bottom row of a list of edges, or `height` when there is none. */
  function BottomRow(es: seq<ZEdge>, height: int): int
  {
    if es == [] then height
    else
      var b := BottomRow(es[..|es| - 1], height);
      var y := EdgeBottom(es[|es| - 1]);
      if y < b then y else b
  }

  /** Every edge spans rows of the clipped row range [0, height-2]. */
  ghost predicate RowsWithin(es: seq<ZEdge>, height: int)
  {
    forall k :: 0 <= k < |es| ==> 0 <= EdgeBottom(es[k]) && es[k].y <= height - 2
  }

  /** For edges on the clipped row range the row range of the list is empty exactly when the
      list is, and otherwise lies inside [0, height-2] with bottom <= top. */
  lemma {:induction false} RowRange(es: seq<ZEdge>, height: int)
    requires RowsWithin(es, height) && forall k :: 0 <= k < |es| ==> es[k].dy >= 1
    ensures es == [] <==> TopRow(es) == -1
    ensures es == [] <==> BottomRow(es, height) == height
    ensures es != [] ==> 0 <= BottomRow(es, height) <= TopRow(es) <= height - 2
  {
    if es != [] {
      var front := es[..|es| - 1];
      assert RowsWithin(front, height) by {
        forall k | 0 <= k < |front| ensures 0 <= EdgeBottom(front[k]) && front[k].y <= height - 2 {
          assert front[k] == es[k];
        }
      }
      RowRange(front, height);
    }
  }

  /** generateEdge appends an edge that satisfies the edge invariant and spans the clipped
      row range, and its widening of [bottom, top] is the row range of the longer list. */
  lemma AddedEdgeOk(es: seq<ZEdge>, os: seq<EdgeOrigin>, a: Vec3, b: Vec3, top: int, bottom: int,
                    width: int, height: int)
    requires ArenaOk(es, os, width) && RowsWithin(es, height)
    requires top == TopRow(es) && bottom == BottomRow(es, height)
    requires Inside(a.x, a.y, width - 1, height - 1) && Inside(b.x, b.y, width - 1, height - 1)
    ensures var r := GenerateEdge(a, b, top, bottom);
            var es' := es + [r.0];
            && ArenaOk(es', os + [OriginOf(a, b)], width) && RowsWithin(es', height)
            && r.1 == TopRow(es') && r.2 == BottomRow(es', height)
            && r.0 == EdgeOf(a, b) && r.0.dy >= 1
  {
    var r := GenerateEdge(a, b, top, bottom);
    var es' := es + [r.0];
    assert es'[..|es|] == es;
    GeneratedEdgeOk(a, b, top, bottom, width);
    TruncWithin(Upper(a, b).y, height - 2);
    TruncWithin(Lower(a, b).y, height - 2);
    var os' := os + [OriginOf(a, b)];
    forall i | 0 <= i < |es'|
      ensures EdgeOk(es'[i], os'[i], width)
    {
      if i < |es| {
        assert es'[i] == es[i] && os'[i] == os[i];
      }
    }
  }

  /** clipEdge on values: Cohen-Sutherland clipping of the side p1o-p2o, after which an
      endpoint that clipping moved takes the depth of the polygon's plane at its new position. */
  function ClipSide(p1o: Vec3, p2o: Vec3, plane: Vec4, width: int, height: int): (r: (ClipResult, Vec3, Vec3))
    ensures r.0 == Rejected ==> r.1 == p1o && r.2 == p2o
    ensures r.0 == Accepted ==> Inside(r.1.x, r.1.y, width, height) && Inside(r.2.x, r.2.y, width, height)
    ensures Inside(p1o.x, p1o.y, width, height) && Inside(p2o.x, p2o.y, width, height) ==>
              r == (Accepted, p1o, p2o)
  {
    var c := LineClip(p1o, p2o, width, height);
    if c.0 != Accepted then c
    else
      (Accepted,
       if c.1 != p1o then c.1.(z := ComputeZ(plane, c.1.x, c.1.y)) else c.1,
       if c.2 != p2o then c.2.(z := ComputeZ(plane, c.2.x, c.2.y)) else c.2)
  }

  /** clipEdge without its texture-coordinate part: Cohen-Sutherland clipping against
      [0, width-1] x [0, height-1], after which an endpoint that clipping moved gets the
      depth of the polygon's plane at its new position. */
  method ClipEdge(p1o: Vec3, p2o: Vec3, plane: Vec4, width: int, height: int)
    returns (result: ClipResult, p1: Vec3, p2: Vec3)
    ensures result == Rejected ==> p1 == p1o && p2 == p2o
    ensures result == Accepted ==>
              Inside(p1.x, p1.y, width, height) && Inside(p2.x, p2.y, width, height)
    ensures result == Accepted ==>
              (p1.x == p1o.x && p1.y == p1o.y ==> p1 == p1o)
              && (p2.x == p2o.x && p2.y == p2o.y ==> p2 == p2o)
              && (p1 != p1o ==> p1.z == ComputeZ(plane, p1.x, p1.y))
              && (p2 != p2o ==> p2.z == ComputeZ(plane, p2.x, p2.y))
    ensures Inside(p1o.x, p1o.y, width, height) && Inside(p2o.x, p2o.y, width, height) ==>
              result == Accepted && p1 == p1o && p2 == p2o
    ensures (result, p1, p2) == ClipSide(p1o, p2o, plane, width, height)
  {
    result, p1, p2 := CohenSutherlandLineClip(p1o, p2o, width, height);
    if result != Accepted {
      return;
    }
    if p1 != p1o {
      p1 := p1.(z := ComputeZ(plane, p1.x, p1.y));
    }
    if p2 != p2o {
      p2 := p2.(z := ComputeZ(plane, p2.x, p2.y));
    }
  }

  /** Every vertex lies in the clip rectangle insertPolygon uses. */
  predicate AllInside(projected: seq<Vec3>, width: int, height: int)
  {
    forall i :: 0 <= i < |projected| ==> Inside(projected[i].x, projected[i].y, width - 1, height - 1)
  }

  /** What the edge loop of insertPolygon keeps true of the edges generated so far. */
  ghost predicate EdgesOk(es: seq<ZEdge>, os: seq<EdgeOrigin>, top: int, bottom: int,
                          width: int, height: int)
  {
    && ArenaOk(es, os, width) && RowsWithin(es, height)
    && (forall k :: 0 <= k < |es| ==> es[k].dy >= 1)
    && top == TopRow(es) && bottom == BottomRow(es, height)
  }

  /** Appending the edge generateEdge builds between two clipped points keeps EdgesOk. */
  method AppendEdge(es: seq<ZEdge>, ghost os: seq<EdgeOrigin>, top: int, bottom: int,
                    a: Vec3, b: Vec3, width: int, height: int)
    returns (es': seq<ZEdge>, ghost os': seq<EdgeOrigin>, top': int, bottom': int)
    requires EdgesOk(es, os, top, bottom, width, height)
    requires Inside(a.x, a.y, width - 1, height - 1) && Inside(b.x, b.y, width - 1, height - 1)
    ensures EdgesOk(es', os', top', bottom', width, height)
    ensures es' == es + [EdgeOf(a, b)]
  {
    var r := GenerateEdge(a, b, top, bottom);
    AddedEdgeOk(es, os, a, b, top, bottom, width, height);
    es', os', top', bottom' := es + [r.0], os + [OriginOf(a, b)], r.1, r.2;
    assert forall k :: 0 <= k < |es| ==> es'[k] == es[k];
  }

  /** The gap edges between two kept sides: one edge from `from` to `to` when they are more
      than half a pixel apart, none otherwise. */
  function Gap(from: Vec3, to: Vec3): (r: seq<ZEdge>)
    ensures |r| <= 1
    ensures from == to ==> r == []
  {
    if DistSq(to, from) > 0.25 then [EdgeOf(from, to)] else []
  }

  /** The gap edge of the edge loop: an edge from `from` to `to` when they are more than half
      a pixel apart (glm::length(to - from) > 0.5), none otherwise; in particular none when
      the two points are the same. */
  method CloseGap(es: seq<ZEdge>, ghost os: seq<EdgeOrigin>, top: int, bottom: int,
                  from: Vec3, to: Vec3, width: int, height: int)
    returns (es': seq<ZEdge>, ghost os': seq<EdgeOrigin>, top': int, bottom': int)
    requires EdgesOk(es, os, top, bottom, width, height)
    requires Inside(from.x, from.y, width - 1, height - 1) && Inside(to.x, to.y, width - 1, height - 1)
    ensures EdgesOk(es', os', top', bottom', width, height)
    ensures DistSq(to, from) > 0.25 ==> es' == es + [EdgeOf(from, to)]
    ensures !(DistSq(to, from) > 0.25) ==> es' == es && top' == top && bottom' == bottom
    ensures to == from ==> es' == es && top' == top && bottom' == bottom
    ensures es' == es + Gap(from, to)
  {
    es', os', top', bottom' := es, os, top, bottom;
    if DistSq(to, from) > 0.25 {
      es', os', top', bottom' := AppendEdge(es, os, top, bottom, from, to, width, height);
    }
  }

  /** One kept side of the edge loop: the first kept side records where the polygon's outline
      begins; a later one is preceded by the gap edge from where the previous kept side ended.
      Then the side's own edge is appended. */
  method KeepSide(es: seq<ZEdge>, ghost os: seq<EdgeOrigin>, top: int, bottom: int,
                  beginned: bool, firstBegin: Vec3, lastEnd: Vec3, p1: Vec3, p2: Vec3,
                  width: int, height: int)
    returns (es': seq<ZEdge>, ghost os': seq<EdgeOrigin>, top': int, bottom': int, firstBegin': Vec3)
    requires EdgesOk(es, os, top, bottom, width, height)
    requires beginned ==> Inside(firstBegin.x, firstBegin.y, width - 1, height - 1)
                          && Inside(lastEnd.x, lastEnd.y, width - 1, height - 1)
    requires Inside(p1.x, p1.y, width - 1, height - 1) && Inside(p2.x, p2.y, width - 1, height - 1)
    ensures EdgesOk(es', os', top', bottom', width, height)
    ensures Inside(firstBegin'.x, firstBegin'.y, width - 1, height - 1)
    ensures !beginned ==> firstBegin' == p1 && es' == es + [EdgeOf(p1, p2)]
    ensures beginned ==> firstBegin' == firstBegin
    ensures beginned && p1 == lastEnd ==> es' == es + [EdgeOf(p1, p2)]
    ensures es' == es + (if beginned then Gap(lastEnd, p1) else []) + [EdgeOf(p1, p2)]
  {
    var es1, os1, top1, bottom1 := es, os, top, bottom;
    if beginned {
      es1, os1, top1, bottom1 := CloseGap(es, os, top, bottom, lastEnd, p1, width, height);
      firstBegin' := firstBegin;
    } else {
      firstBegin' := p1;
    }
    es', os', top', bottom' := AppendEdge(es1, os1, top1, bottom1, p1, p2, width, height);
  }

  /** The edges of the polygon's sides in order, side k running from vertex k to the next. */
  function PolygonSides(projected: seq<Vec3>): (r: seq<ZEdge>)
    ensures |r| == |projected|
    ensures forall k :: 0 <= k < |r| ==> r[k] == EdgeOf(projected[k], projected[Next(k, |projected|)])
  {
    seq(|projected|, k requires 0 <= k < |projected| => EdgeOf(projected[k], projected[Next(k, |projected|)]))
  }

  /** What the edge loop carries from one side to the next: the edges so far, whether a side
      was kept yet, where the first kept side began and where the last kept one ended. */
  datatype EdgeLoop = EdgeLoop(edges: seq<ZEdge>, beginned: bool, firstBegin: Vec3, lastEnd: Vec3)

  /** The point firstBegin and lastEnd hold until a side is kept. */
  const Origin: Vec3 := Vec3(0.0, 0.0, 0.0)

  /** A kept side p1-p2 on values: a later kept side is preceded by the gap edges from the
      last kept end, the first one records where the outline begins. */
  function SideKept(s: EdgeLoop, p1: Vec3, p2: Vec3): (r: EdgeLoop)
    ensures r.beginned && r.lastEnd == p2 && |r.edges| > |s.edges|
  {
    EdgeLoop(s.edges + (if s.beginned then Gap(s.lastEnd, p1) else []) + [EdgeOf(p1, p2)], true,
             if s.beginned then s.firstBegin else p1, p2)
  }

  /** Side i clipped as the edge loop clips it. */
  function SideClipped(projected: seq<Vec3>, plane: Vec4, width: int, height: int, i: nat)
    : (r: (ClipResult, Vec3, Vec3))
    requires i < |projected|
  {
    ClipSide(projected[i], projected[Next(i, |projected|)], plane, width - 1, height - 1)
  }

  /** The edge loop on values, after its first i sides. */
  function SidesDone(projected: seq<Vec3>, plane: Vec4, width: int, height: int, i: nat): (r: EdgeLoop)
    requires i <= |projected|
    decreases i, 1
  {
    if i == 0 then EdgeLoop([], false, Origin, Origin) else LastSideDone(projected, plane, width, height, i)
  }

  /** The edge loop after side i-1, following the sides before it: the side is kept when
      clipping accepts it and skipped otherwise. */
  function LastSideDone(projected: seq<Vec3>, plane: Vec4, width: int, height: int, i: nat): (r: EdgeLoop)
    requires 0 < i <= |projected|
    decreases i, 0
  {
    var s := SidesDone(projected, plane, width, height, i - 1);
    var c := SideClipped(projected, plane, width, height, i - 1);
    if c.0 == Accepted then SideKept(s, c.1, c.2) else s
  }

  /** The edges of a clipped polygon: the edge loop over every side, then the gap edges from
      the last kept end back to the first kept begin. */
  function Outline(projected: seq<Vec3>, plane: Vec4, width: int, height: int): seq<ZEdge>
  {
    var s := SidesDone(projected, plane, width, height, |projected|);
    s.edges + Gap(s.lastEnd, s.firstBegin)
  }

  /** A side has been kept exactly when one of the sides so far was accepted; until then there
      are no edges and both points are the origin, afterwards there is at least one edge. */
  lemma {:induction false} SidesDoneBegun(projected: seq<Vec3>, plane: Vec4, width: int, height: int, i: nat)
    requires i <= |projected|
    ensures var s := SidesDone(projected, plane, width, height, i);
            && (!s.beginned <==> forall k :: 0 <= k < i ==> SideClipped(projected, plane, width, height, k).0 == Rejected)
            && (!s.beginned ==> s.edges == [] && s.firstBegin == Origin && s.lastEnd == Origin)
            && (s.beginned ==> s.edges != [])
  {
    if i > 0 {
      SidesDoneBegun(projected, plane, width, height, i - 1);
    }
  }

  /** A polygon has no edges exactly when clipping rejects every one of its sides. */
  lemma OutlineEmpty(projected: seq<Vec3>, plane: Vec4, width: int, height: int)
    ensures Outline(projected, plane, width, height) == [] <==>
              forall k :: 0 <= k < |projected| ==> SideClipped(projected, plane, width, height, k).0 == Rejected
  {
    SidesDoneBegun(projected, plane, width, height, |projected|);
  }

  /** When every vertex is inside, the loop after i sides holds the first i sides, began at
      vertex 0 and ended at vertex i. */
  lemma {:induction false} SidesDoneInside(projected: seq<Vec3>, plane: Vec4, width: int, height: int, i: nat)
    requires AllInside(projected, width, height) && 0 < i <= |projected|
    ensures SidesDone(projected, plane, width, height, i) ==
              EdgeLoop(PolygonSides(projected)[..i], true, projected[0], projected[Next(i - 1, |projected|)])
  {
    var n := |projected|;
    var a, b := projected[i - 1], projected[Next(i - 1, n)];
    assert Inside(a.x, a.y, width - 1, height - 1) && Inside(b.x, b.y, width - 1, height - 1);
    var c := SideClipped(projected, plane, width, height, i - 1);
    assert c == (Accepted, a, b);
    var before := SidesDone(projected, plane, width, height, i - 1);
    assert SidesDone(projected, plane, width, height, i) == SideKept(before, a, b);
    var sides := PolygonSides(projected);
    if i == 1 {
      assert sides[..1] == [EdgeOf(a, b)];
    } else {
      SidesDoneInside(projected, plane, width, height, i - 1);
      assert before.lastEnd == a;
      assert sides[..i] == sides[..i - 1] + [EdgeOf(a, b)];
    }
  }

  /** When every vertex is inside the rectangle, the outline is the polygon's sides. */
  lemma OutlineInside(projected: seq<Vec3>, plane: Vec4, width: int, height: int)
    requires AllInside(projected, width, height) && |projected| >= 1
    ensures Outline(projected, plane, width, height) == PolygonSides(projected)
  {
    SidesDoneInside(projected, plane, width, height, |projected|);
    assert PolygonSides(projected)[..|projected|] == PolygonSides(projected);
  }

  /** One pass of the edge loop of insertPolygon: side i is clipped and, when clipping keeps
      it, kept; the loop state moves from the first i sides to the first i + 1. */
  method SideStep(projected: seq<Vec3>, plane: Vec4, width: int, height: int, i: nat,
                  es: seq<ZEdge>, ghost os: seq<EdgeOrigin>, top: int, bottom: int,
                  beginned: bool, firstBegin: Vec3, lastEnd: Vec3)
    returns (es': seq<ZEdge>, ghost os': seq<EdgeOrigin>, top': int, bottom': int,
             beginned': bool, firstBegin': Vec3, lastEnd': Vec3)
    requires i < |projected|
    requires EdgesOk(es, os, top, bottom, width, height)
    requires beginned ==> Inside(firstBegin.x, firstBegin.y, width - 1, height - 1)
                          && Inside(lastEnd.x, lastEnd.y, width - 1, height - 1)
    requires SidesDone(projected, plane, width, height, i) == EdgeLoop(es, beginned, firstBegin, lastEnd)
    ensures EdgesOk(es', os', top', bottom', width, height)
    ensures beginned' ==> Inside(firstBegin'.x, firstBegin'.y, width - 1, height - 1)
                          && Inside(lastEnd'.x, lastEnd'.y, width - 1, height - 1)
    ensures SidesDone(projected, plane, width, height, i + 1) == EdgeLoop(es', beginned', firstBegin', lastEnd')
  {
    var n := |projected|;
    var next := if i == n - 1 then 0 else i + 1;
    var result, p1, p2 := ClipEdge(projected[i], projected[next], plane, width - 1, height - 1);
    es', os', top', bottom', beginned', firstBegin', lastEnd' :=
      es, os, top, bottom, beginned, firstBegin, lastEnd;
    if result == Accepted {
      es', os', top', bottom', firstBegin' :=
        KeepSide(es, os, top, bottom, beginned, firstBegin, lastEnd, p1, p2, width, height);
      beginned' := true;
      lastEnd' := p2;
    }
  }

  /** The edge loop of insertPolygon: each side of the polygon is clipped; a side clipping
      keeps becomes an edge, preceded by an edge closing the gap to the previous kept side when
      clipping moved their shared vertex by more than half a pixel; at the end a gap between the
      last and the first kept side is closed too. Also returns the polygon's row range. The first
      and last kept points are the origin until a side is kept. */
  method GenerateEdges(projected: seq<Vec3>, plane: Vec4, width: int, height: int)
    returns (es: seq<ZEdge>, ghost os: seq<EdgeOrigin>, top: int, bottom: int)
    requires |projected| >= 1
    ensures EdgesOk(es, os, top, bottom, width, height)
    ensures es == Outline(projected, plane, width, height)
    ensures AllInside(projected, width, height) ==> es == PolygonSides(projected)
  {
    var n := |projected|;
    var beginned := false;
    var firstBegin, lastEnd := Vec3(0.0, 0.0, 0.0), Vec3(0.0, 0.0, 0.0);
    es, os, top, bottom := [], [], -1, height;
    var i := 0;
    while i < n
      invariant 0 <= i <= n
      invariant EdgesOk(es, os, top, bottom, width, height)
      invariant beginned ==> Inside(firstBegin.x, firstBegin.y, width - 1, height - 1)
                             && Inside(lastEnd.x, lastEnd.y, width - 1, height - 1)
      invariant SidesDone(projected, plane, width, height, i) == EdgeLoop(es, beginned, firstBegin, lastEnd)
    {
      es, os, top, bottom, beginned, firstBegin, lastEnd :=
        SideStep(projected, plane, width, height, i, es, os, top, bottom, beginned, firstBegin, lastEnd);
      i := i + 1;
    }
    if beginned {
      es, os, top, bottom := CloseGap(es, os, top, bottom, lastEnd, firstBegin, width, height);
    } else {
      SidesDoneBegun(projected, plane, width, height, n);
    }
    if AllInside(projected, width, height) {
      OutlineInside(projected, plane, width, height);
    }
  }

  /** The indices base, base+1, ..., base+n-1. */
  function Indices(base: nat, n: nat): (r: seq<nat>)
    ensures |r| == n && forall k :: 0 <= k < n ==> r[k] == base + k
  {
    seq(n, k => base + k)
  }

  /** Rows n-1 down to 0: the order draw visits the rows in. */
  function RowsDown(n: nat): (r: seq<int>)
    ensures |r| == n
    ensures forall k :: 0 <= k < n ==> r[k] == n - 1 - k
  {
    if n == 0 then [] else [n - 1] + RowsDown(n - 1)
  }

  // ---------------------------------------------------------------------------
  // Drawing a row, on values
  // ---------------------------------------------------------------------------

  /** The depth the scan loop of drawEdgePair reaches at column x: zL at startX, and dzX more
      at every further column, so that along the span it is linear in the column. */
  function SpanDepth(zL: real, dzX: real, startX: int, x: int): (z: real)
    ensures startX <= x ==> z == zL + (x - startX) as real * dzX
    decreases x - startX
  {
    if x <= startX then zL
    else
      assert (x - startX) as real * dzX == (x - 1 - startX) as real * dzX + dzX;
      SpanDepth(zL, dzX, startX, x - 1) + dzX
  }

  /** A row is consistent when every depth is at least the empty depth and every column still
      at the empty depth shows the background. */
  ghost predicate Consistent(z: seq<real>, f: seq<Pixel>, off: int)
    requires 0 <= off && off + |z| <= |f|
  {
    forall x :: 0 <= x < |z| ==>
      z[x] >= NEG_MAX_FLOAT && (z[x] == NEG_MAX_FLOAT ==> f[off + x] == BG_COLOR)
  }

  /** The effect of the scan loop of drawEdgePair on the row's depths and the frame: a column
      of [startX, endX] whose span depth is strictly nearer (larger) than the stored one takes
      that depth and, unless the polygon is textured, the polygon's colour written over it;
      every other column and every pixel outside the row stay as they were. */
  ghost predicate SpanDrawn(z0: seq<real>, f0: seq<Pixel>, z1: seq<real>, f1: seq<Pixel>, off: int,
                            startX: int, endX: int, zL: real, dzX: real, color: Pixel,
                            textured: bool, fill: FillColor)
    requires |z1| == |z0| && |f1| == |f0| && 0 <= off && off + |z0| <= |f0|
  {
    && (forall x :: 0 <= x < |z0| ==>
          if startX <= x <= endX && SpanDepth(zL, dzX, startX, x) > z0[x] then
            z1[x] == SpanDepth(zL, dzX, startX, x)
            && f1[off + x] == (if textured then f0[off + x] else fill(f0[off + x], color, false))
          else
            z1[x] == z0[x] && f1[off + x] == f0[off + x])
    && (forall k :: 0 <= k < |f0| && !(off <= k < off + |z0|) ==> f1[k] == f0[k])
  }

  /** Drawing a span never makes a stored depth farther, and keeps a consistent row
      consistent. */
  lemma SpanKeepsConsistent(z0: seq<real>, f0: seq<Pixel>, z1: seq<real>, f1: seq<Pixel>, off: int,
                            startX: int, endX: int, zL: real, dzX: real, color: Pixel,
                            textured: bool, fill: FillColor)
    requires |z1| == |z0| && |f1| == |f0| && 0 <= off && off + |z0| <= |f0|
    requires SpanDrawn(z0, f0, z1, f1, off, startX, endX, zL, dzX, color, textured, fill)
    ensures forall x :: 0 <= x < |z0| ==> z1[x] >= z0[x]
    ensures Consistent(z0, f0, off) ==> Consistent(z1, f1, off)
  {
    forall x | 0 <= x < |z0|
      ensures z1[x] >= z0[x]
      ensures Consistent(z0, f0, off) ==>
                z1[x] >= NEG_MAX_FLOAT && (z1[x] == NEG_MAX_FLOAT ==> f1[off + x] == BG_COLOR)
    {
    }
  }

  /** Whether a pair is kept by the clean-up of drawLine: it is removed once both its edges
      have no rows left. */
  function KeepPair(es: seq<ZEdge>): (keep: ActiveEdgePair -> bool)
    ensures forall p: ActiveEdgePair :: p.leftEdge < |es| && p.rightEdge < |es| ==>
              (keep(p) <==> es[p.leftEdge].dy > 0 || es[p.rightEdge].dy > 0)
  {
    (p: ActiveEdgePair) => !(p.leftEdge < |es| && p.rightEdge < |es| && es[p.leftEdge].dy <= 0 && es[p.rightEdge].dy <= 0)
  }

  /** Whether an active polygon is kept by the clean-up of drawLine: it is removed once its
      row count reaches exactly zero. */
  function KeepActive(ps: seq<ZPolygon>): (keep: nat -> bool)
    ensures forall q: nat :: q < |ps| ==> (keep(q) <==> ps[q].dy != 0)
  {
    (q: nat) => !(q < |ps| && ps[q].dy == 0)
  }

  /** The row drawLine draws before its clean-ups: the row at off of the frame f cleared, the
      polygons of active paired in order with the new pairs appended to pairs, then every
      pair drawn in order. */
  function RowDrawn(es: seq<ZEdge>, ps: seq<ZPolygon>, pairs: seq<ActiveEdgePair>, active: seq<nat>,
                    line: int, zeroLimit: real, f: seq<Pixel>, off: int, width: nat, fill: FillColor)
    : (r: RowState)
    ensures |r.pairs| == |pairs| + |PairActive(es, ps, active, line, zeroLimit).0|
    ensures |r.polygons| == |ps|
  {
    var made := PairActive(es, ps, active, line, zeroLimit);
    var cleared := RowState(es, made.1, pairs + made.0, seq(width, _ => NEG_MAX_FLOAT),
                            ClearedRow(f, off, width));
    DrawnPairs(cleared, |cleared.pairs|, off, fill)
  }

  /** Every polygon of ps1 is the one of ps0 with one row fewer per occurrence in active. */
  ghost predicate CountedDown(ps0: seq<ZPolygon>, ps1: seq<ZPolygon>, active: seq<nat>)
  {
    |ps1| == |ps0| && forall q: nat :: q < |ps0| ==> ps1[q] == ps0[q].(dy := ps0[q].dy - multiset(active)[q])
  }

  /** Each polygon of ps with one row fewer per occurrence in active: the count-down loop of
      drawLine on values. */
  function CountedDownPolygons(ps: seq<ZPolygon>, active: seq<nat>): (r: seq<ZPolygon>)
    ensures CountedDown(ps, r, active)
  {
    seq(|ps|, q requires 0 <= q < |ps| => ps[q].(dy := ps[q].dy - multiset(active)[q]))
  }

  /** A counted-down arena is the one CountedDownPolygons gives. */
  lemma CountedDownIs(ps0: seq<ZPolygon>, ps1: seq<ZPolygon>, active: seq<nat>)
    requires CountedDown(ps0, ps1, active)
    ensures ps1 == CountedDownPolygons(ps0, active)
  {
    var r := CountedDownPolygons(ps0, active);
    forall q | 0 <= q < |ps0| ensures ps1[q] == r[q] {
      assert ps1[q] == ps0[q].(dy := ps0[q].dy - multiset(active)[q]);
    }
  }

  /** What draw carries from one row to the next: the arena, the polygons, the active polygons,
      the active pairs, the depth row and the whole frame. */
  datatype DrawState = DrawState(edges: seq<ZEdge>, polygons: seq<ZPolygon>, active: seq<nat>,
                                 pairs: seq<ActiveEdgePair>, depths: seq<real>, frame: seq<Pixel>)

  /** drawLine for row `line`, whose pixels start at off, on values: the row's polygons join the
      active ones, the row is drawn as RowDrawn states, every active polygon counts one row
      down, and the finished pairs and polygons leave the active tables. */
  function LineDrawn(s: DrawState, tables: seq<seq<nat>>, line: int, off: int, zeroLimit: real,
                     width: nat, fill: FillColor): (r: DrawState)
    requires 0 <= line < |tables|
    ensures |r.polygons| == |s.polygons|
  {
    var act := s.active + tables[line];
    var drawn := RowDrawn(s.edges, s.polygons, s.pairs, act, line, zeroLimit, s.frame, off, width, fill);
    var ps := CountedDownPolygons(drawn.polygons, act);
    var pairs := Filter(drawn.pairs, KeepPair(drawn.edges));
    var active := Filter(act, KeepActive(ps));
    DrawState(drawn.edges, ps, active, pairs, drawn.depths, drawn.frame)
  }

  /** After a row, no finished pair and no polygon whose count reached zero is still active. */
  lemma LineDrawnCleans(s: DrawState, tables: seq<seq<nat>>, line: int, off: int, zeroLimit: real,
                        width: nat, fill: FillColor)
    requires 0 <= line < |tables|
    ensures var r := LineDrawn(s, tables, line, off, zeroLimit, width, fill);
            (forall p :: p in r.pairs ==> KeepPair(r.edges)(p)) &&
            (forall q :: q in r.active ==> KeepActive(r.polygons)(q))
  {
    var act := s.active + tables[line];
    var drawn := RowDrawn(s.edges, s.polygons, s.pairs, act, line, zeroLimit, s.frame, off, width, fill);
    FilterKeeps(drawn.pairs, KeepPair(drawn.edges));
    FilterKeeps(act, KeepActive(CountedDownPolygons(drawn.polygons, act)));
  }

  /** Every element that survives a filter is kept by it. */
  lemma FilterKeeps<T>(s: seq<T>, keep: T -> bool)
    ensures forall x :: x in Filter(s, keep) ==> keep(x)
  {
    forall x | x in Filter(s, keep) ensures keep(x) {
      FilterMembership(s, keep, x);
    }
  }

  /** Every row of rows has a table. */
  predicate RowsIn(rows: seq<int>, n: nat)
  {
    forall k :: 0 <= k < |rows| ==> 0 <= rows[k] < n
  }

  /** The loop of draw on values: the rows drawn one after the other, row r at offset
      r * width. */
  function RowsDrawn(s: DrawState, tables: seq<seq<nat>>, rows: seq<int>, zeroLimit: real,
                     width: nat, fill: FillColor): (r: DrawState)
    requires RowsIn(rows, |tables|)
    ensures |r.polygons| == |s.polygons|
    decreases |rows|, 1
  {
    if rows == [] then s else LastRowDrawn(s, tables, rows, zeroLimit, width, fill)
  }

  /** The last row of rows drawn by LineDrawn after the rows before it. */
  function LastRowDrawn(s: DrawState, tables: seq<seq<nat>>, rows: seq<int>, zeroLimit: real,
                        width: nat, fill: FillColor): (r: DrawState)
    requires rows != [] && RowsIn(rows, |tables|)
    ensures |r.polygons| == |s.polygons|
    decreases |rows|, 0
  {
    var row := rows[|rows| - 1];
    LineDrawn(RowsDrawn(s, tables, rows[..|rows| - 1], zeroLimit, width, fill), tables, row,
              row * width, zeroLimit, width, fill)
  }

  /** Drawing one more row extends RowsDrawn by LineDrawn for it. */
  lemma RowsDrawnStep(s: DrawState, tables: seq<seq<nat>>, rows: seq<int>, row: int, zeroLimit: real,
                      width: nat, fill: FillColor)
    requires RowsIn(rows, |tables|) && 0 <= row < |tables|
    ensures RowsIn(rows + [row], |tables|)
    ensures RowsDrawn(s, tables, rows + [row], zeroLimit, width, fill) ==
            LineDrawn(RowsDrawn(s, tables, rows, zeroLimit, width, fill), tables, row, row * width,
                      zeroLimit, width, fill)
  {
    assert (rows + [row])[..|rows|] == rows;
    assert RowsDrawn(s, tables, rows + [row], zeroLimit, width, fill) ==
           LastRowDrawn(s, tables, rows + [row], zeroLimit, width, fill);
  }

  /** Only the pools of pending edges differ between the two polygon arenas. */
  ghost predicate PoolsOnly(ps0: seq<ZPolygon>, ps1: seq<ZPolygon>)
  {
    |ps1| == |ps0| && forall q :: 0 <= q < |ps0| ==> ps1[q] == ps0[q].(unpairedEdges := ps1[q].unpairedEdges)
  }

  /** The pair update of drawEdgePair, step by step as the source makes it: the depth update,
      the two edge steps, then the left and the right continuation searches. */
  method AdvanceOnValues(es: seq<ZEdge>, pool: seq<nat>, p: ActiveEdgePair)
    returns (es': seq<ZEdge>, pool': seq<nat>, p': ActiveEdgePair)
    requires p.leftEdge < |es| && p.rightEdge < |es| && AllIn(pool, |es|)
    ensures (es', pool', p') == AdvancePair(es, pool, p)
  {
    var l, r := p.leftEdge, p.rightEdge;
    p' := StepDepths(es, p);
    ghost var s2 := StepPair(es, p);
    es' := es;
    if es'[l].dy > 0 {
      es' := es'[l := es'[l].(dy := es'[l].dy - 1, x := es'[l].x + es'[l].dx)];
    }
    assert es' == StepAt(es, l);
    ghost var es1 := es';
    if es'[r].dy > 0 {
      es' := es'[r := es'[r].(dy := es'[r].dy - 1, x := es'[r].x + es'[r].dx)];
    }
    assert es' == StepAt(es1, r);
    assert es' == s2.0;
    es', pool', p' := SpliceLeftOnValues(es', pool, p', p.zR);
    es', pool', p' := SpliceRightOnValues(es', pool', p', p.zL);
  }

  /** The left continuation search of drawEdgePair. */
  method SpliceLeftOnValues(es: seq<ZEdge>, pool: seq<nat>, p: ActiveEdgePair, zR0: real)
    returns (es': seq<ZEdge>, pool': seq<nat>, p': ActiveEdgePair)
    requires p.leftEdge < |es| && p.rightEdge < |es| && AllIn(pool, |es|)
    ensures (es', pool', p') == SpliceLeft(es, pool, p, zR0)
  {
    es', pool', p' := es, pool, p;
    var l, r := p.leftEdge, p.rightEdge;
    if es[l].dy <= 0 && es[r].dy >= 0 {
      var i := FindNearX(pool, es, es[l].x);
      if i >= 0 {
        var n := pool[i];
        p' := p.(leftEdge := n, zL := es[n].z);
        pool' := Remove(pool, i);
        es' := es[r := es[r].(dy := es[r].dy + 1, x := es[r].x - es[r].dx)];
        p' := p'.(zR := zR0);
      }
    }
  }

  /** The right continuation search of drawEdgePair. */
  method SpliceRightOnValues(es: seq<ZEdge>, pool: seq<nat>, p: ActiveEdgePair, zL0: real)
    returns (es': seq<ZEdge>, pool': seq<nat>, p': ActiveEdgePair)
    requires p.leftEdge < |es| && p.rightEdge < |es| && AllIn(pool, |es|)
    ensures (es', pool', p') == SpliceRight(es, pool, p, zL0)
  {
    es', pool', p' := es, pool, p;
    var l, r := p.leftEdge, p.rightEdge;
    if es[r].dy <= 0 && es[l].dy >= 0 {
      var j := FindNearX(pool, es, es[r].x);
      if j >= 0 {
        var n := pool[j];
        p' := p.(rightEdge := n, zR := es[n].z);
        pool' := Remove(pool, j);
        es' := es[l := es[l].(dy := es[l].dy + 1, x := es[l].x - es[l].dx)];
        p' := p'.(zL := zL0);
      }
    }
  }

  /** Advancing one pair keeps the invariant of the tables. */
  lemma AdvanceKeepsState(edges: seq<ZEdge>, origins: seq<EdgeOrigin>, polygons: seq<ZPolygon>,
                          tables: seq<seq<nat>>, active: seq<nat>, pairs: seq<ActiveEdgePair>,
                          width: int, height: int, k: nat)
    requires StateOk(edges, origins, polygons, tables, active, pairs, width, height)
    requires k < |pairs|
    ensures var p := pairs[k];
            var q := p.polygon;
            && p.leftEdge < |edges| && p.rightEdge < |edges| && q < |polygons|
            && AllIn(polygons[q].unpairedEdges, |edges|)
            && var r := AdvancePair(edges, polygons[q].unpairedEdges, p);
               StateOk(r.0, origins, polygons[q := polygons[q].(unpairedEdges := r.1)],
                       tables, active, pairs[k := r.2], width, height)
  {
    var p := pairs[k];
    var q := p.polygon;
    assert PairOk(p, origins);
    var poly := polygons[q];
    assert PolygonOk(poly, origins);
    PoolInArena(poly.unpairedEdges, origins);
    var r := AdvancePair(edges, poly.unpairedEdges, p);
    AdvanceKeepsInvariant(edges, origins, width, poly.unpairedEdges, p);
    var polygons' := polygons[q := poly.(unpairedEdges := r.1)];
    assert PolygonOk(polygons'[q], origins);
    assert PolygonsOk(polygons', origins) by {
      forall q' | 0 <= q' < |polygons'| ensures PolygonOk(polygons'[q'], origins) {
        if q' != q {
          assert polygons'[q'] == polygons[q'];
        }
      }
    }
    var pairs' := pairs[k := r.2];
    assert PairsOk(pairs', origins, |polygons'|) by {
      forall k' | 0 <= k' < |pairs'| ensures PairOk(pairs'[k'], origins) && pairs'[k'].polygon < |polygons'| {
        if k' != k {
          assert pairs'[k'] == pairs[k'];
        }
      }
    }
  }

  /** The pairs and the pool insertActiveEdgePairs leaves keep the invariant of the tables. */
  lemma PairingKeepsState(edges: seq<ZEdge>, origins: seq<EdgeOrigin>, polygons: seq<ZPolygon>,
                          tables: seq<seq<nat>>, active: seq<nat>, pairs: seq<ActiveEdgePair>,
                          width: int, height: int, zeroLimit: real, line: int, q: nat,
                          newPairs: seq<ActiveEdgePair>, pool: seq<nat>, discarded: seq<nat>)
    requires StateOk(edges, origins, polygons, tables, active, pairs, width, height)
    requires q < |polygons|
    requires PairingDone(edges, polygons[q], line, q, zeroLimit, newPairs, pool, discarded)
    ensures StateOk(edges, origins, polygons[q := polygons[q].(unpairedEdges := pool)], tables, active,
                    pairs + newPairs, width, height)
  {
    var poly := polygons[q];
    assert PolygonOk(poly, origins);
    var candidates := EdgesAt(poly.edges, edges, line);
    var sorted := SortByXDesc(candidates, edges);
    forall e | FromPoolOrSloped(e, poly.unpairedEdges, sorted, edges)
      ensures Sloped(origins, e) && e in poly.edges
    {
      if e in poly.unpairedEdges {
        InPoolSloped(poly.unpairedEdges, origins, e);
      } else {
        SlopedByRows(edges, origins, width, e);
        assert e in multiset(candidates);
        FilterMembership(poly.edges, e' => StartsAt(edges, line, e'), e);
      }
    }
    var polygons' := polygons[q := poly.(unpairedEdges := pool)];
    assert PolygonOk(polygons'[q], origins);
    assert PolygonsOk(polygons', origins) by {
      forall q' | 0 <= q' < |polygons'| ensures PolygonOk(polygons'[q'], origins) {
        if q' != q {
          assert polygons'[q'] == polygons[q'];
        }
      }
    }
    var pairs' := pairs + newPairs;
    assert PairsOk(pairs', origins, |polygons'|) by {
      forall k | 0 <= k < |pairs'| ensures PairOk(pairs'[k], origins) && pairs'[k].polygon < |polygons'| {
        if k >= |pairs| {
          assert pairs'[k] in newPairs;
        } else {
          assert pairs'[k] == pairs[k];
        }
      }
    }
  }

  /** The state after drawEdgePair moved pair k of pairs0 on: the arena, the pool of the
      pair's polygon and the pair itself are those AdvancePair gives. */
  ghost predicate PairAdvanced(es0: seq<ZEdge>, ps0: seq<ZPolygon>, pairs0: seq<ActiveEdgePair>, k: nat,
                               es1: seq<ZEdge>, ps1: seq<ZPolygon>, pairs1: seq<ActiveEdgePair>)
  {
    && k < |pairs0|
    && var p := pairs0[k];
       var q := p.polygon;
       && p.leftEdge < |es0| && p.rightEdge < |es0| && q < |ps0|
       && AllIn(ps0[q].unpairedEdges, |es0|)
       && var r := AdvancePair(es0, ps0[q].unpairedEdges, p);
          && es1 == r.0
          && ps1 == ps0[q := ps0[q].(unpairedEdges := r.1)]
          && pairs1 == pairs0[k := r.2]
  }

  /** What insertActiveEdgePairs for polygon q (as it was before) leaves: the pairs and the
      pool PolygonPairing gives. Every candidate of
      the row and every pending edge is paired, pending again, or discarded as a one-row edge;
      the pending edges are old pending edges or sloped candidates, and every new pair is one
      the pairing makes. */
  ghost predicate PairingDone(es: seq<ZEdge>, poly0: ZPolygon, line: int, q: nat, zeroLimit: real,
                              newPairs: seq<ActiveEdgePair>, pool: seq<nat>, discarded: seq<nat>)
  {
    var candidates := EdgesAt(poly0.edges, es, line);
    && zeroLimit > 0.0 && AllIn(candidates, |es|) && AllIn(poly0.unpairedEdges, |es|)
    && (newPairs, pool) == PolygonPairing(poly0, es, line, q, zeroLimit)
    && var sorted := SortByXDesc(candidates, es);
       && multiset(sorted) + multiset(poly0.unpairedEdges) ==
          multiset(PairedEdges(newPairs)) + multiset(pool) + multiset(discarded)
       && (forall e :: e in discarded ==> e in sorted && es[e].dy == 1)
       && (forall e :: e in pool ==> FromPoolOrSloped(e, poly0.unpairedEdges, sorted, es))
       && (forall p :: p in newPairs ==>
             PairMadeBy(p, poly0.unpairedEdges, sorted, es, poly0.depthPlane, q, zeroLimit))
  }

  /** The loop of drawLine over the active polygons on values: each active polygon in turn,
      with the pool it has by then, pairs its edges starting at the row. Returns the new pairs
      in order and the polygons with their new pools. */
  function PairActive(es: seq<ZEdge>, ps: seq<ZPolygon>, active: seq<nat>, line: int,
                      zeroLimit: real): (r: (seq<ActiveEdgePair>, seq<ZPolygon>))
    ensures |r.1| == |ps|
    decreases |active|
  {
    if active == [] then ([], ps)
    else
      var before := PairActive(es, ps, active[..|active| - 1], line, zeroLimit);
      var q := active[|active| - 1];
      if q < |before.1| && zeroLimit > 0.0 && AllIn(before.1[q].unpairedEdges, |es|) then
        var made := PolygonPairing(before.1[q], es, line, q, zeroLimit);
        (before.0 + made.0, before.1[q := before.1[q].(unpairedEdges := made.1)])
      else before
  }

  /** One more active polygon paired extends PairActive by its pairing: its new pairs follow
      those of the polygons before it in a table that started as base. */
  lemma PairActiveExtends(es: seq<ZEdge>, ps: seq<ZPolygon>, active: seq<nat>, i: nat, line: int,
                          zeroLimit: real, ps0: seq<ZPolygon>, newPairs: seq<ActiveEdgePair>,
                          pool: seq<nat>, discarded: seq<nat>,
                          base: seq<ActiveEdgePair>, table: seq<ActiveEdgePair>)
    requires i < |active| && ps0 == PairActive(es, ps, active[..i], line, zeroLimit).1
    requires active[i] < |ps0|
    requires PairingDone(es, ps0[active[i]], line, active[i], zeroLimit, newPairs, pool, discarded)
    requires table == base + PairActive(es, ps, active[..i], line, zeroLimit).0 + newPairs
    ensures var q := active[i];
            var made := PairActive(es, ps, active[..i + 1], line, zeroLimit);
            table == base + made.0 && made.1 == ps0[q := ps0[q].(unpairedEdges := pool)]
  {
    assert active[..i + 1][..i] == active[..i];
    var before := PairActive(es, ps, active[..i], line, zeroLimit).0;
    assert PairActive(es, ps, active[..i + 1], line, zeroLimit).0 == before + newPairs;
    AppendAssoc(base, before, newPairs);
  }

  lemma AppendAssoc<T>(a: seq<T>, b: seq<T>, c: seq<T>)
    ensures a + b + c == a + (b + c)
  {
  }

  lemma PoolsOnlyTransitive(ps0: seq<ZPolygon>, ps1: seq<ZPolygon>, ps2: seq<ZPolygon>)
    requires PoolsOnly(ps0, ps1) && PoolsOnly(ps1, ps2)
    ensures PoolsOnly(ps0, ps2)
  {
    forall q | 0 <= q < |ps0| ensures ps2[q] == ps0[q].(unpairedEdges := ps2[q].unpairedEdges) {
      assert ps1[q] == ps0[q].(unpairedEdges := ps1[q].unpairedEdges);
    }
  }

  /** Changing polygons in anything but the edges they own keeps the invariant. */
  lemma OwnershipKeepsState(edges: seq<ZEdge>, origins: seq<EdgeOrigin>, ps0: seq<ZPolygon>,
                            ps1: seq<ZPolygon>, tables: seq<seq<nat>>, active: seq<nat>,
                            pairs: seq<ActiveEdgePair>, width: int, height: int)
    requires StateOk(edges, origins, ps0, tables, active, pairs, width, height)
    requires |ps1| == |ps0|
    requires forall q :: 0 <= q < |ps0| ==>
               ps1[q].edges == ps0[q].edges && ps1[q].unpairedEdges == ps0[q].unpairedEdges
    ensures StateOk(edges, origins, ps1, tables, active, pairs, width, height)
  {
    assert PolygonsOk(ps1, origins) by {
      forall q | 0 <= q < |ps1| ensures PolygonOk(ps1[q], origins) {
        assert PolygonOk(ps0[q], origins);
      }
    }
  }

  /** Keeping only some of the active pairs keeps the invariant. */
  lemma SubPairsKeepState(edges: seq<ZEdge>, origins: seq<EdgeOrigin>, polygons: seq<ZPolygon>,
                          tables: seq<seq<nat>>, active: seq<nat>, pairs: seq<ActiveEdgePair>,
                          kept: seq<ActiveEdgePair>, width: int, height: int)
    requires StateOk(edges, origins, polygons, tables, active, pairs, width, height)
    requires forall p :: p in kept ==> p in pairs
    ensures StateOk(edges, origins, polygons, tables, active, kept, width, height)
  {
    forall k | 0 <= k < |kept| ensures PairOk(kept[k], origins) && kept[k].polygon < |polygons| {
      assert kept[k] in pairs;
      var j :| 0 <= j < |pairs| && pairs[j] == kept[k];
    }
  }

  /** The two fills at the start of drawLine: every depth of the row becomes the empty depth
      and every pixel of the row at offset the background colour. */
  method ClearRow(zBuffer: array<real>, frame: array<Pixel>, offset: int)
    requires 0 <= offset && offset + zBuffer.Length <= frame.Length
    modifies zBuffer, frame
    ensures forall x :: 0 <= x < zBuffer.Length ==> zBuffer[x] == NEG_MAX_FLOAT && frame[offset + x] == BG_COLOR
    ensures forall k :: 0 <= k < frame.Length && !(offset <= k < offset + zBuffer.Length) ==>
              frame[k] == old(frame[k])
    ensures Consistent(zBuffer[..], frame[..], offset)
    ensures zBuffer[..] == seq(zBuffer.Length, _ => NEG_MAX_FLOAT)
    ensures frame[..] == ClearedRow(old(frame[..]), offset, zBuffer.Length)
  {
    var x := 0;
    while x < zBuffer.Length
      invariant 0 <= x <= zBuffer.Length
      invariant forall c :: 0 <= c < x ==> zBuffer[c] == NEG_MAX_FLOAT
      invariant frame[..] == old(frame[..])
    {
      zBuffer[x] := NEG_MAX_FLOAT;
      x := x + 1;
    }
    x := 0;
    while x < zBuffer.Length
      invariant 0 <= x <= zBuffer.Length
      invariant forall c :: 0 <= c < zBuffer.Length ==> zBuffer[c] == NEG_MAX_FLOAT
      invariant forall k :: offset <= k < offset + x ==> frame[k] == BG_COLOR
      invariant forall k :: 0 <= k < frame.Length && !(offset <= k < offset + x) ==> frame[k] == old(frame[k])
    {
      frame[offset + x] := BG_COLOR;
      x := x + 1;
    }
  }

  /** The depth column c holds after the scan of startX..endX. */
  function SpanCell(z0: real, c: int, startX: int, endX: int, zL: real, dzX: real): real
  {
    if startX <= c <= endX && SpanDepth(zL, dzX, startX, c) > z0 then SpanDepth(zL, dzX, startX, c) else z0
  }

  /** The pixel of column c after the scan of startX..endX. */
  function SpanPixel(f0: Pixel, z0: real, c: int, startX: int, endX: int, zL: real, dzX: real,
                     color: Pixel, textured: bool, fill: FillColor): Pixel
  {
    if startX <= c <= endX && SpanDepth(zL, dzX, startX, c) > z0 && !textured then fill(f0, color, false) else f0
  }

  /** The column-wise description of a scan that stopped after column last is SpanDrawn,
      when last is endX or the span is empty. */
  lemma SpanCellsDrawn(z0: seq<real>, f0: seq<Pixel>, z1: seq<real>, f1: seq<Pixel>, off: int,
                       startX: int, endX: int, last: int, zL: real, dzX: real, color: Pixel,
                       textured: bool, fill: FillColor)
    requires |z1| == |z0| && |f1| == |f0| && 0 <= off && off + |z0| <= |f0|
    requires last == endX || (last < startX && endX < startX)
    requires forall c :: 0 <= c < |z0| ==> z1[c] == SpanCell(z0[c], c, startX, last, zL, dzX)
    requires forall k :: 0 <= k < |f0| ==>
               f1[k] == if off <= k < off + |z0| then
                          SpanPixel(f0[k], z0[k - off], k - off, startX, last, zL, dzX, color, textured, fill)
                        else f0[k]
    ensures SpanDrawn(z0, f0, z1, f1, off, startX, endX, zL, dzX, color, textured, fill)
  {
    forall x | 0 <= x < |z0|
      ensures if startX <= x <= endX && SpanDepth(zL, dzX, startX, x) > z0[x] then
                z1[x] == SpanDepth(zL, dzX, startX, x)
                && f1[off + x] == (if textured then f0[off + x] else fill(f0[off + x], color, false))
              else
                z1[x] == z0[x] && f1[off + x] == f0[off + x]
    {
      assert z1[x] == SpanCell(z0[x], x, startX, last, zL, dzX);
      assert f1[off + x] == SpanPixel(f0[off + x], z0[x], x, startX, last, zL, dzX, color, textured, fill);
    }
  }

  /** The scan loop of drawEdgePair over the columns startX..endX of the row at offset. */
  method ScanSpan(zBuffer: array<real>, frame: array<Pixel>, offset: int, startX: int, endX: int,
                  zL: real, dzX: real, color: Pixel, textured: bool, fill: FillColor)
    requires 0 <= offset && offset + zBuffer.Length <= frame.Length
    requires 0 <= startX && endX < zBuffer.Length
    modifies zBuffer, frame
    ensures SpanDrawn(old(zBuffer[..]), old(frame[..]), zBuffer[..], frame[..], offset,
                      startX, endX, zL, dzX, color, textured, fill)
    ensures zBuffer[..] == SpanDepths(old(zBuffer[..]), startX, endX, zL, dzX)
    ensures frame[..] == SpanFrame(old(zBuffer[..]), old(frame[..]), offset, startX, endX, zL, dzX,
                                   color, textured, fill)
  {
    ghost var z0, f0 := zBuffer[..], frame[..];
    var x := startX;
    var z := zL;
    while x <= endX
      invariant startX <= x && (x <= endX + 1 || x == startX)
      invariant z == SpanDepth(zL, dzX, startX, x)
      invariant forall c :: 0 <= c < zBuffer.Length ==> zBuffer[c] == SpanCell(z0[c], c, startX, x - 1, zL, dzX)
      invariant forall k :: 0 <= k < frame.Length ==>
                  frame[k] == if offset <= k < offset + zBuffer.Length then
                                SpanPixel(f0[k], z0[k - offset], k - offset, startX, x - 1, zL, dzX, color, textured, fill)
                              else f0[k]
    {
      if z > zBuffer[x] {
        zBuffer[x] := z;
        if !textured {
          frame[offset + x] := fill(frame[offset + x], color, false);
        }
      }
      z := z + dzX;
      x := x + 1;
    }
    SpanCellsDrawn(z0, f0, zBuffer[..], frame[..], offset, startX, endX, x - 1, zL, dzX, color, textured, fill);
    SpanCellsAre(z0, f0, zBuffer[..], frame[..], offset, startX, endX, x - 1, zL, dzX, color, textured, fill);
  }

  /** The row's depths after the scan of startX..endX. */
  function SpanDepths(z0: seq<real>, startX: int, endX: int, zL: real, dzX: real): (z: seq<real>)
    ensures |z| == |z0|
  {
    seq(|z0|, c requires 0 <= c < |z0| => SpanCell(z0[c], c, startX, endX, zL, dzX))
  }

  /** The frame after the scan of startX..endX over the row at offset off. */
  function SpanFrame(z0: seq<real>, f0: seq<Pixel>, off: int, startX: int, endX: int, zL: real,
                     dzX: real, color: Pixel, textured: bool, fill: FillColor): (f: seq<Pixel>)
    ensures |f| == |f0|
  {
    seq(|f0|, k requires 0 <= k < |f0| =>
      if off <= k < off + |z0| then SpanPixel(f0[k], z0[k - off], k - off, startX, endX, zL, dzX, color, textured, fill)
      else f0[k])
  }

  /** The depths and the frame SpanDepths and SpanFrame give are a drawn span. */
  lemma SpanFunctionsDrawn(z0: seq<real>, f0: seq<Pixel>, off: int, startX: int, endX: int,
                           zL: real, dzX: real, color: Pixel, textured: bool, fill: FillColor)
    requires 0 <= off && off + |z0| <= |f0|
    ensures SpanDrawn(z0, f0, SpanDepths(z0, startX, endX, zL, dzX),
                      SpanFrame(z0, f0, off, startX, endX, zL, dzX, color, textured, fill), off,
                      startX, endX, zL, dzX, color, textured, fill)
  {
    SpanCellsDrawn(z0, f0, SpanDepths(z0, startX, endX, zL, dzX),
                   SpanFrame(z0, f0, off, startX, endX, zL, dzX, color, textured, fill), off,
                   startX, endX, endX, zL, dzX, color, textured, fill);
  }

  /** The column-wise description of a finished scan is SpanDepths and SpanFrame. */
  lemma SpanCellsAre(z0: seq<real>, f0: seq<Pixel>, z1: seq<real>, f1: seq<Pixel>, off: int,
                     startX: int, endX: int, last: int, zL: real, dzX: real, color: Pixel,
                     textured: bool, fill: FillColor)
    requires |z1| == |z0| && |f1| == |f0| && 0 <= off && off + |z0| <= |f0|
    requires last == endX || (last < startX && endX < startX)
    requires forall c :: 0 <= c < |z0| ==> z1[c] == SpanCell(z0[c], c, startX, last, zL, dzX)
    requires forall k :: 0 <= k < |f0| ==>
               f1[k] == if off <= k < off + |z0| then
                          SpanPixel(f0[k], z0[k - off], k - off, startX, last, zL, dzX, color, textured, fill)
                        else f0[k]
    ensures z1 == SpanDepths(z0, startX, endX, zL, dzX)
    ensures f1 == SpanFrame(z0, f0, off, startX, endX, zL, dzX, color, textured, fill)
  {
    var z := SpanDepths(z0, startX, endX, zL, dzX);
    forall c | 0 <= c < |z0| ensures z1[c] == z[c] {
      assert z1[c] == SpanCell(z0[c], c, startX, last, zL, dzX);
    }
    var f := SpanFrame(z0, f0, off, startX, endX, zL, dzX, color, textured, fill);
    forall k | 0 <= k < |f0| ensures f1[k] == f[k] {
      if off <= k < off + |z0| {
        assert f1[k] == SpanPixel(f0[k], z0[k - off], k - off, startX, last, zL, dzX, color, textured, fill);
      }
    }
  }

  /** The frame with the row of n pixels at offset off filled with the background. */
  function ClearedRow(f: seq<Pixel>, off: int, n: int): (r: seq<Pixel>)
    ensures |r| == |f|
  {
    seq(|f|, k requires 0 <= k < |f| => if off <= k < off + n then BG_COLOR else f[k])
  }

  /** What drawing the active pairs works on: the arena, the polygons, the pairs, the row's
      depths and the frame. */
  datatype RowState = RowState(edges: seq<ZEdge>, polygons: seq<ZPolygon>,
                               pairs: seq<ActiveEdgePair>, depths: seq<real>, frame: seq<Pixel>)

  /** drawEdgePair for pair k on values: a bad pair (its span starts or ends left of the
      frame) changes nothing; otherwise its span is drawn into the row at offset off, and
      the pair, its polygon's pool and the arena move on as AdvancePair states. */
  function DrawnPair(s: RowState, k: nat, off: int, fill: FillColor): (r: RowState)
    ensures |r.pairs| == |s.pairs|
    ensures |r.polygons| == |s.polygons|
  {
    if k >= |s.pairs| then s
    else
      var p := s.pairs[k];
      var q := p.polygon;
      if !(p.leftEdge < |s.edges| && p.rightEdge < |s.edges| && q < |s.polygons|
           && AllIn(s.polygons[q].unpairedEdges, |s.edges|)) then s
      else
        var startX, endX := SpanStart(s.edges, p), SpanEnd(s.edges, p);
        if startX < 0 || endX < 0 then s
        else
          var r := AdvancePair(s.edges, s.polygons[q].unpairedEdges, p);
          RowState(r.0, s.polygons[q := s.polygons[q].(unpairedEdges := r.1)], s.pairs[k := r.2],
                   SpanDepths(s.depths, startX, endX, p.zL, p.dzX),
                   SpanFrame(s.depths, s.frame, off, startX, endX, p.zL, p.dzX,
                             s.polygons[q].color, s.polygons[q].textured, fill))
  }

  /** The loop of drawLine over the active pairs on values: pairs 0 to n - 1 drawn in order. */
  function DrawnPairs(s: RowState, n: nat, off: int, fill: FillColor): (r: RowState)
    ensures |r.pairs| == |s.pairs|
    ensures |r.polygons| == |s.polygons|
  {
    if n == 0 then s else DrawnPair(DrawnPairs(s, n - 1, off, fill), n - 1, off, fill)
  }

  /** The loop that empties every row's table on reset. */
  method ClearTables(tables: seq<seq<nat>>) returns (r: seq<seq<nat>>)
    ensures |r| == |tables| && forall row :: 0 <= row < |r| ==> r[row] == []
    ensures r == seq(|tables|, _ => [])
  {
    r := tables;
    var i := 0;
    while i < |r|
      invariant 0 <= i <= |r| == |tables|
      invariant forall row :: 0 <= row < i ==> r[row] == []
    {
      r := r[i := []];
      i := i + 1;
    }
  }

  /** The loop of drawLine that pushes the row's polygons onto the active table. */
  method PushAll(active: seq<nat>, row: seq<nat>) returns (r: seq<nat>)
    ensures r == active + row
  {
    r := active;
    var i := 0;
    while i < |row|
      invariant 0 <= i <= |row|
      invariant r == active + row[..i]
    {
      assert row[..i + 1] == row[..i] + [row[i]];
      r := r + [row[i]];
      i := i + 1;
    }
    assert row[..i] == row;
  }

  /** The loop of drawLine that counts every active polygon one row down; a polygon active
      several times loses one row per occurrence. */
  method CountDown(ps: seq<ZPolygon>, active: seq<nat>) returns (r: seq<ZPolygon>)
    requires AllIn(active, |ps|)
    ensures |r| == |ps|
    ensures forall q: nat :: q < |ps| ==> r[q] == ps[q].(dy := ps[q].dy - multiset(active)[q])
  {
    r := ps;
    var i := 0;
    while i < |active|
      invariant 0 <= i <= |active| && |r| == |ps|
      invariant forall q: nat :: q < |ps| ==> r[q] == ps[q].(dy := ps[q].dy - multiset(active[..i])[q])
    {
      var q := active[i];
      assert active[..i + 1] == active[..i] + [q];
      r := r[q := r[q].(dy := r[q].dy - 1)];
      i := i + 1;
    }
    assert active[..i] == active;
  }

  /** std::remove_if followed by erase: the elements the predicate keeps, in their order. */
  method KeepIf<T>(s: seq<T>, keep: T -> bool) returns (r: seq<T>)
    ensures r == Filter(s, keep)
    ensures forall x :: x in r <==> x in s && keep(x)
  {
    r := [];
    var i := 0;
    while i < |s|
      invariant 0 <= i <= |s|
      invariant r == Filter(s[..i], keep)
    {
      assert s[..i + 1] == s[..i] + [s[i]];
      FilterAppend(s[..i], [s[i]], keep);
      if keep(s[i]) {
        r := r + [s[i]];
      }
      i := i + 1;
    }
    assert s[..i] == s;
    forall x ensures x in r <==> x in s && keep(x) {
      FilterMembership(s, keep, x);
    }
  }

  /** insertActiveEdgePairs on values: the polygon's edges starting at the row, sorted by
      decreasing x, are paired; returns the new pairs and the polygon's new pending edges. */
  method PairPolygon(poly: ZPolygon, edges: seq<ZEdge>, line: int, q: nat, zeroLimit: real)
    returns (newPairs: seq<ActiveEdgePair>, pool: seq<nat>, ghost discarded: seq<nat>)
    requires zeroLimit > 0.0 && AllIn(poly.edges, |edges|) && AllIn(poly.unpairedEdges, |edges|)
    ensures PairingDone(edges, poly, line, q, zeroLimit, newPairs, pool, discarded)
  {
    var candidates := CollectEdgesAt(poly.edges, edges, line);
    forall i | 0 <= i < |candidates| ensures candidates[i] < |edges| {
      assert candidates[i] in poly.edges;
    }
    var sorted := SortByXDesc(candidates, edges);
    newPairs, pool, discarded := PairEdges(sorted, poly.unpairedEdges, edges, poly.depthPlane, q, zeroLimit);
  }

  /** The row offsets of the frame that draw walks through stay inside a frame of
      width * height pixels. */
  lemma RowOffset(i: int, width: int, height: int)
    requires 0 <= i < height && 0 <= width
    ensures 0 <= i * width && i * width + width <= width * height
  {
    assert i * width + width == (i + 1) * width;
    assert (i + 1) * width <= height * width;
  }

  // ---------------------------------------------------------------------------
  // The rasteriser
  // ---------------------------------------------------------------------------

  class ZBufferScanLine {
    const width: int
    const height: int
    const near: real
    const far: real
    /** ZERO_LIMIT, the tolerance of the plane and ordering tests. */
    const zeroLimit: real
    const fillColor: FillColor
    /** The depth buffer of one row. */
    const zBuffer: array<real>

    var index: int
    var mvp: Mat4
    var viewDir: Vec3
    /** The frame the caller of draw supplied, and the pixel of it where the current row starts. */
    var frameBuffer: array<Pixel>
    var frameOffset: int
    var numPolygon: int

    var edges: seq<ZEdge>
    var polygons: seq<ZPolygon>
    var polygonTables: seq<seq<nat>>
    var activePolygonTable: seq<nat>
    var activeEdgePairTable: seq<ActiveEdgePair>

    /** Where each edge of the arena came from. */
    ghost var origins: seq<EdgeOrigin>
    /** The rows drawn so far, in order. */
    ghost var drawnRows: seq<int>

    /** The sizes fixed at construction: one table per row and one depth per column. */
    ghost predicate Shape()
      reads this
    {
      && 0 <= width && 0 <= height && zeroLimit > 0.0
      && zBuffer.Length == width && |polygonTables| == height
    }

    /** The class invariant: the counter counts the polygons, and the tables, arenas and
        pairs satisfy StateOk. */
    ghost predicate Valid()
      reads this
    {
      && Shape()
      && numPolygon == |polygons|
      && StateOk(edges, origins, polygons, polygonTables, activePolygonTable, activeEdgePairTable,
                 width, height)
    }

    /** The current row of the frame lies inside the frame. */
    predicate RowInFrame()
      reads this
    {
      0 <= frameOffset && frameOffset + width <= frameBuffer.Length
    }

    /** The state drawing the active pairs works on. */
    ghost function Row(): RowState
      reads this, zBuffer, frameBuffer
    {
      RowState(edges, polygons, activeEdgePairTable, zBuffer[..], frameBuffer[..])
    }

    /** The state draw carries from one row to the next. */
    ghost function State(): DrawState
      reads this, zBuffer, frameBuffer
    {
      DrawState(edges, polygons, activePolygonTable, activeEdgePairTable, zBuffer[..], frameBuffer[..])
    }

    /** Row consistency: every depth is at least the empty depth, and a column still at the
        empty depth still shows the background. */
    ghost predicate RowConsistent()
      reads this, zBuffer, frameBuffer
      requires RowInFrame() && zBuffer.Length == width
    {
      Consistent(zBuffer[..], frameBuffer[..], frameOffset)
    }

    /** A rasteriser for a frame of width x height pixels with one empty table per row. The
        source leaves the polygon counter and the current row uninitialised; here they are 0. */
    constructor (width: int, height: int, near: real, far: real, zeroLimit: real, fillColor: FillColor)
      requires width >= 0 && height >= 0 && zeroLimit > 0.0
      ensures Valid()
      ensures this.width == width && this.height == height && this.near == near && this.far == far
      ensures this.zeroLimit == zeroLimit && this.fillColor == fillColor
      ensures fresh(zBuffer)
      ensures polygonTables == seq(height, _ => []) && activePolygonTable == [] && activeEdgePairTable == []
      ensures edges == [] && polygons == [] && numPolygon == 0 && drawnRows == []
      ensures index == 0 && frameOffset == 0
    {
      this.width := width;
      this.height := height;
      this.near := near;
      this.far := far;
      this.zeroLimit := zeroLimit;
      this.fillColor := fillColor;
      zBuffer := new real[width];
      index := 0;
      mvp := seq(16, _ => 0.0);
      viewDir := Vec3(0.0, 0.0, 0.0);
      frameBuffer := new Pixel[0];
      frameOffset := 0;
      numPolygon := 0;
      edges, polygons, origins := [], [], [];
      polygonTables := seq(height, _ => []);
      activePolygonTable, activeEdgePairTable := [], [];
      drawnRows := [];
    }

    /** Empties the active tables and every row's table and forgets every polygon and edge.
        The state afterwards does not depend on the state before, so resetting twice is the
        same as resetting once. */
    method Reset()
      requires Shape()
      modifies this
      ensures Valid()
      ensures activePolygonTable == [] && activeEdgePairTable == []
      ensures polygonTables == seq(height, _ => []) && numPolygon == 0
      ensures edges == [] && polygons == []
      ensures SameView()
    {
      var tables := ClearTables(polygonTables);
      EmptyStateOk(tables, width, height);
      activePolygonTable, activeEdgePairTable, polygonTables := [], [], tables;
      polygons, edges, origins, numPolygon := [], [], [], 0;
    }

    /** Stores the matrix; every other field keeps its value. */
    method SetMVP(m: Mat4)
      modifies this
      ensures mvp == m && viewDir == old(viewDir)
      ensures frameBuffer == old(frameBuffer) && frameOffset == old(frameOffset)
      ensures index == old(index) && drawnRows == old(drawnRows) && SameTables()
      ensures edges == old(edges) && polygons == old(polygons)
      ensures activeEdgePairTable == old(activeEdgePairTable)
    {
      mvp := m;
    }

    /** Stores the view direction; every other field keeps its value. */
    method SetViewDir(dir: Vec3)
      modifies this
      ensures viewDir == dir && mvp == old(mvp)
      ensures frameBuffer == old(frameBuffer) && frameOffset == old(frameOffset)
      ensures index == old(index) && drawnRows == old(drawnRows) && SameTables()
      ensures edges == old(edges) && polygons == old(polygons)
      ensures activeEdgePairTable == old(activeEdgePairTable)
    {
      viewDir := dir;
    }

    /** The number of polygons inserted since the last reset. */
    method GetNumPolygon() returns (n: int)
      requires Valid()
      ensures n == |polygons|
    {
      n := numPolygon;
    }

    /** The frame and the pixel at which the current row starts. */
    method GetLineFrameBuffer() returns (buffer: array<Pixel>, offset: int)
      ensures buffer == frameBuffer && offset == frameOffset
    {
      buffer, offset := frameBuffer, frameOffset;
    }

    /** The frame, its current row and the matrices, which only draw and the setters change. */
    twostate predicate SameSetup()
      reads this
    {
      && mvp == old(mvp) && viewDir == old(viewDir)
      && frameBuffer == old(frameBuffer) && frameOffset == old(frameOffset)
    }

    /** The parts of the state that only drawing and the setters change. */
    twostate predicate SameView()
      reads this
    {
      SameSetup() && index == old(index) && drawnRows == old(drawnRows)
    }

    /** The tables of rows and active polygons, and where the edges came from. */
    twostate predicate SameTables()
      reads this
    {
      && polygonTables == old(polygonTables) && activePolygonTable == old(activePolygonTable)
      && numPolygon == old(numPolygon) && origins == old(origins)
    }

    /** Every pixel of the frame outside the current row keeps its value. */
    twostate predicate OutsideRowKept()
      reads this, frameBuffer
    {
      && frameBuffer == old(frameBuffer) && frameOffset == old(frameOffset)
      && forall k :: 0 <= k < frameBuffer.Length && !(frameOffset <= k < frameOffset + width) ==>
                      frameBuffer[k] == old(frameBuffer[k])
    }

    /** The insertion at the end of insertPolygon: the new edges join the arena, and the
        polygon, which owns exactly them, joins the table of its top row. */
    method AddPolygon(es: seq<ZEdge>, ghost os: seq<EdgeOrigin>, p: ZPolygon, top: int)
      requires Valid() && ArenaOk(es, os, width) && 0 <= top < height
      requires p.edges == Indices(|edges|, |es|) && p.unpairedEdges == []
      modifies this
      ensures Valid() && SameView()
      ensures edges == old(edges) + es && polygons == old(polygons) + [p]
      ensures polygonTables == old(polygonTables)[top := old(polygonTables)[top] + [old(|polygons|)]]
      ensures activePolygonTable == old(activePolygonTable) && activeEdgePairTable == old(activeEdgePairTable)
    {
      AppendKeepsState(edges, origins, polygons, polygonTables, activePolygonTable,
                       activeEdgePairTable, width, height, es, os, p, top);
      edges, origins := edges + es, origins + os;
      polygonTables := polygonTables[top := polygonTables[top] + [|polygons|]];
      polygons := polygons + [p];
      numPolygon := numPolygon + 1;
    }

    /** The end of insertPolygon: a polygon that kept no edge is culled; otherwise it joins
        the table of its top row with dy = top - bottom + 1 and the counter grows. */
    method InsertEdges(es: seq<ZEdge>, ghost os: seq<EdgeOrigin>, top: int, bottom: int,
                       plane: Vec4, color: Pixel, useTexture: bool)
      requires Valid() && EdgesOk(es, os, top, bottom, width, height)
      modifies this
      ensures Valid() && SameView()
      ensures activePolygonTable == old(activePolygonTable) && activeEdgePairTable == old(activeEdgePairTable)
      ensures es == [] ==>
                edges == old(edges) && polygons == old(polygons) && polygonTables == old(polygonTables)
      ensures es != [] ==>
                && 0 <= bottom <= top < height
                && edges == old(edges) + es
                && polygons == old(polygons) + [ZPolygon(plane, color, top - bottom + 1,
                                                         Indices(old(|edges|), |es|), [], useTexture)]
                && polygonTables == old(polygonTables)[top := old(polygonTables)[top] + [old(|polygons|)]]
      ensures old(edges) <= edges && old(polygons) <= polygons
      ensures |polygons| == old(|polygons|) || |polygons| == old(|polygons|) + 1
      ensures |polygons| == old(|polygons|) <==> es == []
      ensures |polygons| == old(|polygons|) + 1 ==>
                var q := old(|polygons|);
                var p := polygons[q];
                var es := edges[old(|edges|)..];
                var top := TopRow(es);
                && es != [] && p.edges == Indices(old(|edges|), |es|) && p.unpairedEdges == []
                && p.depthPlane == plane && p.color == color && p.textured == useTexture
                && 0 <= BottomRow(es, height) <= top < height
                && p.dy == top - BottomRow(es, height) + 1
                && polygonTables == old(polygonTables)[top := old(polygonTables)[top] + [q]]
    {
      RowRange(es, height);
      if top == -1 || bottom == height {
        return;
      }
      var p := ZPolygon(plane, color, top - bottom + 1, Indices(|edges|, |es|), [], useTexture);
      AddPolygon(es, os, p, top);
      assert edges[old(|edges|)..] == es;
      assert polygons[old(|polygons|)] == p;
    }

    /** insertPolygon, from the projected vertices on: a polygon facing away from the viewer
        (normal.z below zeroLimit) is dropped; otherwise its sides are clipped to the frame and
        turned into edges, and unless none survive, the polygon, with its plane, colour and
        number of rows, is appended to the table of its top row. */
    method InsertPolygon(projected: seq<Vec3>, normal: Vec3, vertexColor: Pixel, useTexture: bool)
      requires Valid() && |projected| >= 3
      modifies this
      ensures Valid()
      ensures Dot(normal, Vec3(0.0, 0.0, 1.0)) < zeroLimit ==>
                edges == old(edges) && polygons == old(polygons)
      ensures activePolygonTable == old(activePolygonTable) && activeEdgePairTable == old(activeEdgePairTable)
      ensures old(edges) <= edges && old(polygons) <= polygons
      ensures |polygons| == old(|polygons|) ==>
                edges == old(edges) && polygonTables == old(polygonTables)
      ensures |polygons| == old(|polygons|) || |polygons| == old(|polygons|) + 1
      ensures |polygons| == old(|polygons|) + 1 ==>
                var q := old(|polygons|);
                var p := polygons[q];
                var es := edges[old(|edges|)..];
                var top := TopRow(es);
                && Dot(normal, Vec3(0.0, 0.0, 1.0)) >= zeroLimit
                && es != [] && p.edges == Indices(old(|edges|), |es|) && p.unpairedEdges == []
                && p.depthPlane == ComputePlane(normal, projected[0])
                && p.color == fillColor([0, 0, 0, 0], vertexColor, true)
                && p.textured == useTexture
                && 0 <= BottomRow(es, height) <= top < height
                && p.dy == top - BottomRow(es, height) + 1
                && polygonTables == old(polygonTables)[top := old(polygonTables)[top] + [q]]
      ensures Dot(normal, Vec3(0.0, 0.0, 1.0)) >= zeroLimit && AllInside(projected, width, height) ==>
                |polygons| == old(|polygons|) + 1
                && |edges| == old(|edges|) + |projected|
                && edges[old(|edges|)..] == PolygonSides(projected)
      ensures Dot(normal, Vec3(0.0, 0.0, 1.0)) >= zeroLimit ==>
                var es := Outline(projected, ComputePlane(normal, projected[0]), width, height);
                && (es == [] ==> edges == old(edges) && polygons == old(polygons))
                && (es != [] ==> |polygons| == old(|polygons|) + 1 && edges == old(edges) + es)
      ensures SameView()
    {
      if Dot(normal, Vec3(0.0, 0.0, 1.0)) < zeroLimit {
        return;
      }
      var plane := ComputePlane(normal, projected[0]);
      var es, os, top, bottom := GenerateEdges(projected, plane, width, height);
      InsertEdges(es, os, top, bottom, plane, fillColor([0, 0, 0, 0], vertexColor, true), useTexture);
      assert es != [] ==> edges[old(|edges|)..] == es;
    }

    // -------------------------------------------------------------------------
    // Drawing
    // -------------------------------------------------------------------------

    /** The pair update in drawEdgePair: pair k, its two edges and its polygon's pending edges
        move on to the next row as AdvancePair states. */
    method AdvanceActivePair(k: nat)
      requires Valid() && k < |activeEdgePairTable|
      modifies this
      ensures Valid() && SameView() && SameTables()
      ensures PairAdvanced(old(edges), old(polygons), old(activeEdgePairTable), k,
                           edges, polygons, activeEdgePairTable)
    {
      var p := activeEdgePairTable[k];
      var q := p.polygon;
      AdvanceKeepsState(edges, origins, polygons, polygonTables, activePolygonTable,
                        activeEdgePairTable, width, height, k);
      var es, pool, p' := AdvanceOnValues(edges, polygons[q].unpairedEdges, p);
      edges := es;
      polygons := polygons[q := polygons[q].(unpairedEdges := pool)];
      activeEdgePairTable := activeEdgePairTable[k := p'];
    }

    /** drawEdgePair: a pair whose span would start or end left of the frame is left alone
        ("bad pair"); otherwise the span between its edges is drawn into the current row and
        the pair moves on to the next row. */
    method DrawEdgePair(k: nat)
      requires Valid() && RowInFrame() && k < |activeEdgePairTable|
      modifies this, zBuffer, frameBuffer
      ensures Valid() && SameView() && SameTables()
      ensures var p := old(activeEdgePairTable[k]);
              var startX := SpanStart(old(edges), p);
              var endX := SpanEnd(old(edges), p);
              if startX < 0 || endX < 0 then
                && edges == old(edges) && polygons == old(polygons)
                && activeEdgePairTable == old(activeEdgePairTable)
                && zBuffer[..] == old(zBuffer[..]) && frameBuffer[..] == old(frameBuffer[..])
              else
                && PairAdvanced(old(edges), old(polygons), old(activeEdgePairTable), k,
                                edges, polygons, activeEdgePairTable)
                && SpanDrawn(old(zBuffer[..]), old(frameBuffer[..]), zBuffer[..], frameBuffer[..],
                             frameOffset, startX, endX, p.zL, p.dzX, old(polygons[p.polygon]).color,
                             old(polygons[p.polygon]).textured, fillColor)
      ensures Row() == DrawnPair(old(Row()), k, frameOffset, fillColor)
    {
      var p := activeEdgePairTable[k];
      var q := p.polygon;
      assert PairOk(p, origins);
      var startX := Trunc(edges[p.leftEdge].x);
      var endX := Trunc(if p.leftEdge == p.rightEdge then edges[p.leftEdge].dx else edges[p.rightEdge].x);
      if startX < 0 || endX < 0 {
        return;
      }
      SpanInRow(edges, origins, width, p);
      ScanSpan(zBuffer, frameBuffer, frameOffset, startX, endX, p.zL, p.dzX,
               polygons[q].color, polygons[q].textured, fillColor);
      AdvanceActivePair(k);
    }

    /** drawEdgePair for the k-th active pair, seen from drawLine's loop: the row stays
        consistent and only pending pools of polygons change. */
    method DrawPairInRow(k: nat)
      requires Valid() && RowInFrame() && RowConsistent() && k < |activeEdgePairTable|
      modifies this, zBuffer, frameBuffer
      ensures Valid() && SameView() && SameTables() && OutsideRowKept() && RowConsistent()
      ensures |activeEdgePairTable| == old(|activeEdgePairTable|) && PoolsOnly(old(polygons), polygons)
      ensures Row() == DrawnPair(old(Row()), k, frameOffset, fillColor)
    {
      ghost var z0, f0, ps0 := zBuffer[..], frameBuffer[..], polygons;
      ghost var pairs0, es0 := activeEdgePairTable, edges;
      DrawEdgePair(k);
      ghost var p := pairs0[k];
      if SpanStart(es0, p) >= 0 && SpanEnd(es0, p) >= 0 {
        SpanKeepsConsistent(z0, f0, zBuffer[..], frameBuffer[..], frameOffset,
                            SpanStart(es0, p), SpanEnd(es0, p), p.zL, p.dzX,
                            ps0[p.polygon].color, ps0[p.polygon].textured, fillColor);
      }
    }

    /** The loop of drawLine over the active pairs: every pair draws its span and moves on. */
    method DrawAllPairs()
      requires Valid() && RowInFrame() && RowConsistent()
      modifies this, zBuffer, frameBuffer
      ensures Valid() && SameView() && SameTables() && OutsideRowKept() && RowConsistent()
      ensures |activeEdgePairTable| == old(|activeEdgePairTable|) && PoolsOnly(old(polygons), polygons)
      ensures Row() == DrawnPairs(old(Row()), old(|activeEdgePairTable|), frameOffset, fillColor)
    {
      ghost var start := Row();
      var k := 0;
      while k < |activeEdgePairTable|
        invariant 0 <= k <= |activeEdgePairTable| == old(|activeEdgePairTable|)
        invariant Valid() && SameView() && SameTables() && OutsideRowKept() && RowConsistent()
        invariant PoolsOnly(old(polygons), polygons)
        invariant Row() == DrawnPairs(start, k, frameOffset, fillColor)
      {
        ghost var ps0 := polygons;
        ghost var s0 := Row();
        DrawPairInRow(k);
        assert DrawnPairs(start, k + 1, frameOffset, fillColor) == DrawnPair(s0, k, frameOffset, fillColor);
        PoolsOnlyTransitive(old(polygons), ps0, polygons);
        k := k + 1;
      }
    }

    /** insertActiveEdgePairs for active polygon q: its edges starting at this row are paired;
        the pairs are appended to the active pairs and the edges left over become the
        polygon's pending edges. */
    method InsertActiveEdgePairs(line: int, q: nat) returns (ghost discarded: seq<nat>)
      requires Valid() && q < |polygons|
      modifies this
      ensures Valid() && SameView() && SameTables() && edges == old(edges)
      ensures polygons == old(polygons)[q := old(polygons[q]).(unpairedEdges := polygons[q].unpairedEdges)]
      ensures old(activeEdgePairTable) <= activeEdgePairTable
      ensures PairingDone(edges, old(polygons[q]), line, q, zeroLimit,
                          activeEdgePairTable[old(|activeEdgePairTable|)..], polygons[q].unpairedEdges,
                          discarded)
    {
      var poly := polygons[q];
      assert PolygonOk(poly, origins);
      PoolInArena(poly.unpairedEdges, origins);
      var newPairs, pool;
      newPairs, pool, discarded := PairPolygon(poly, edges, line, q, zeroLimit);
      PairingKeepsState(edges, origins, polygons, polygonTables, activePolygonTable, activeEdgePairTable,
                        width, height, zeroLimit, line, q, newPairs, pool, discarded);
      polygons := polygons[q := poly.(unpairedEdges := pool)];
      activeEdgePairTable := activeEdgePairTable + newPairs;
      assert activeEdgePairTable[old(|activeEdgePairTable|)..] == newPairs;
    }

    /** The loop of drawLine over the active polygons: insertActiveEdgePairs for each. */
    method InsertAllPairs(line: int)
      requires Valid()
      modifies this
      ensures Valid() && SameView() && SameTables() && edges == old(edges)
      ensures PoolsOnly(old(polygons), polygons)
      ensures old(activeEdgePairTable) <= activeEdgePairTable
      ensures var made := PairActive(edges, old(polygons), activePolygonTable, line, zeroLimit);
              activeEdgePairTable == old(activeEdgePairTable) + made.0 && polygons == made.1
    {
      var i := 0;
      while i < |activePolygonTable|
        invariant 0 <= i <= |activePolygonTable|
        invariant Valid() && SameView() && SameTables() && edges == old(edges)
        invariant PoolsOnly(old(polygons), polygons)
        invariant old(activeEdgePairTable) <= activeEdgePairTable
        invariant var made := PairActive(edges, old(polygons), activePolygonTable[..i], line, zeroLimit);
                  activeEdgePairTable == old(activeEdgePairTable) + made.0 && polygons == made.1
      {
        var q := activePolygonTable[i];
        assert q < |polygons|;
        ghost var ps0, pairs0 := polygons, activeEdgePairTable;
        ghost var discarded := InsertActiveEdgePairs(line, q);
        assert PoolsOnly(ps0, polygons);
        PoolsOnlyTransitive(old(polygons), ps0, polygons);
        assert old(activeEdgePairTable) <= pairs0 <= activeEdgePairTable;
        assert activeEdgePairTable == pairs0 + activeEdgePairTable[|pairs0|..];
        PairActiveExtends(edges, old(polygons), activePolygonTable, i, line, zeroLimit,
                          ps0, activeEdgePairTable[|pairs0|..], polygons[q].unpairedEdges, discarded,
                          old(activeEdgePairTable), activeEdgePairTable);
        i := i + 1;
      }
      assert activePolygonTable[..i] == activePolygonTable;
    }

    /** The polygons starting at this row become active. */
    method ActivatePolygons(line: int)
      requires Valid() && 0 <= line < height
      modifies this
      ensures Valid() && SameView() && edges == old(edges) && polygons == old(polygons)
      ensures activeEdgePairTable == old(activeEdgePairTable) && polygonTables == old(polygonTables)
      ensures numPolygon == old(numPolygon) && origins == old(origins)
      ensures activePolygonTable == old(activePolygonTable) + polygonTables[line]
    {
      activePolygonTable := PushAll(activePolygonTable, polygonTables[line]);
    }

    /** Every active polygon counts one row down. */
    method CountDownActive()
      requires Valid()
      modifies this
      ensures Valid() && SameView() && SameTables() && edges == old(edges)
      ensures activeEdgePairTable == old(activeEdgePairTable) && |polygons| == old(|polygons|)
      ensures forall q: nat :: q < |polygons| ==>
                polygons[q] == old(polygons[q]).(dy := old(polygons[q]).dy - multiset(activePolygonTable)[q])
    {
      var ps := CountDown(polygons, activePolygonTable);
      OwnershipKeepsState(edges, origins, polygons, ps, polygonTables, activePolygonTable,
                          activeEdgePairTable, width, height);
      polygons := ps;
    }

    /** The clean-ups at the end of drawLine: the pairs both of whose edges are finished, and
        then the polygons with exactly zero rows left, leave the active tables; the others
        keep their order. */
    method RetireFinished()
      requires Valid()
      modifies this
      ensures Valid() && SameView() && edges == old(edges) && polygons == old(polygons)
      ensures polygonTables == old(polygonTables) && numPolygon == old(numPolygon) && origins == old(origins)
      ensures activeEdgePairTable == Filter(old(activeEdgePairTable), KeepPair(edges))
      ensures forall p :: p in activeEdgePairTable ==> KeepPair(edges)(p)
      ensures activePolygonTable == Filter(old(activePolygonTable), KeepActive(polygons))
      ensures forall q :: q in activePolygonTable ==> KeepActive(polygons)(q)
    {
      var pairs := KeepIf(activeEdgePairTable, KeepPair(edges));
      SubPairsKeepState(edges, origins, polygons, polygonTables, activePolygonTable, activeEdgePairTable,
                        pairs, width, height);
      var act := KeepIf(activePolygonTable, KeepActive(polygons));
      forall i | 0 <= i < |act| ensures act[i] < |polygons| {
        assert act[i] in activePolygonTable;
      }
      activeEdgePairTable := pairs;
      activePolygonTable := act;
    }

    /** The part of drawLine before the clean-ups: the row is cleared, the polygons starting
        at it become active, their edges starting here are paired, and every active pair is
        drawn into the row, as RowDrawn states. */
    method ClearAndDrawRow(line: int)
      requires Valid() && RowInFrame() && 0 <= line < height
      modifies this, zBuffer, frameBuffer
      ensures Valid() && SameView() && OutsideRowKept() && RowConsistent()
      ensures polygonTables == old(polygonTables) && numPolygon == old(numPolygon) && origins == old(origins)
      ensures activePolygonTable == old(activePolygonTable) + old(polygonTables[line])
      ensures PoolsOnly(old(polygons), polygons)
      ensures Row() == RowDrawn(old(edges), old(polygons), old(activeEdgePairTable), activePolygonTable,
                                line, zeroLimit, old(frameBuffer[..]), frameOffset, width, fillColor)
    {
      ClearRow(zBuffer, frameBuffer, frameOffset);
      ghost var z0, f0 := zBuffer[..], frameBuffer[..];
      ActivatePolygons(line);
      ghost var made := PairActive(old(edges), old(polygons), activePolygonTable, line, zeroLimit);
      InsertAllPairs(line);
      ghost var cleared := Row();
      assert cleared == RowState(old(edges), made.1, old(activeEdgePairTable) + made.0, z0, f0);
      DrawAllPairs();
      PoolsOnlyTransitive(old(polygons), cleared.polygons, polygons);
    }

    /** drawLine: row `line` of the frame is cleared and every active pair drawn into it. The
        polygons starting at this row become active first and their edges starting here are
        paired; afterwards every active polygon counts one row down, and the finished pairs
        and polygons leave the active tables. */
    method DrawLine(line: int)
      requires Valid() && RowInFrame() && 0 <= line < height
      modifies this, zBuffer, frameBuffer
      ensures Valid() && SameSetup() && OutsideRowKept() && RowConsistent()
      ensures index == line && drawnRows == old(drawnRows) + [line]
      ensures polygonTables == old(polygonTables) && numPolygon == old(numPolygon)
      ensures |polygons| == old(|polygons|)
      ensures var act := old(activePolygonTable) + old(polygonTables[line]);
              && (forall q: nat :: q < |polygons| ==> polygons[q].dy == old(polygons[q].dy) - multiset(act)[q])
              && activePolygonTable == Filter<nat>(act, KeepActive(polygons))
      ensures forall q :: q in activePolygonTable ==> polygons[q].dy != 0
      ensures forall p :: p in activeEdgePairTable ==> KeepPair(edges)(p)
      ensures var act := old(activePolygonTable) + old(polygonTables[line]);
              var drawn := RowDrawn(old(edges), old(polygons), old(activeEdgePairTable), act, line,
                                    zeroLimit, old(frameBuffer[..]), frameOffset, width, fillColor);
              && edges == drawn.edges && zBuffer[..] == drawn.depths && frameBuffer[..] == drawn.frame
              && activeEdgePairTable == Filter(drawn.pairs, KeepPair(edges))
              && CountedDown(drawn.polygons, polygons, act)
    {
      index := line;
      drawnRows := drawnRows + [line];
      ghost var ps0 := polygons;
      ClearAndDrawRow(line);
      ghost var act: seq<nat> := activePolygonTable;
      ghost var ps1 := polygons;
      ghost var drawn := Row();
      CountDownActive();
      ghost var ps2 := polygons;
      assert CountedDown(ps1, ps2, act);
      forall q: nat | q < |polygons| ensures polygons[q].dy == ps0[q].dy - multiset(act)[q] {
        assert ps1[q] == ps0[q].(unpairedEdges := ps1[q].unpairedEdges);
      }
      RetireFinished();
      assert polygons == ps2;
    }

    /** The body of draw's loop: drawLine for row i, then the frame pointer moves one row
        down. Every pixel outside row i keeps its value. */
    method DrawRow(i: int)
      requires Valid() && 0 <= i < height && frameOffset == i * width
      requires 0 <= i * width && i * width + width <= frameBuffer.Length
      modifies this, zBuffer, frameBuffer
      ensures Valid() && frameBuffer == old(frameBuffer) && frameOffset == old(frameOffset) - width
      ensures drawnRows == old(drawnRows) + [i]
      ensures forall k :: 0 <= k < frameBuffer.Length && !(i * width <= k < i * width + width) ==>
                frameBuffer[k] == old(frameBuffer[k])
      ensures polygonTables == old(polygonTables) && numPolygon == old(numPolygon)
      ensures mvp == old(mvp) && viewDir == old(viewDir)
      ensures State() == LineDrawn(old(State()), polygonTables, i, i * width, zeroLimit, width, fillColor)
    {
      DrawLine(i);
      ghost var act := old(activePolygonTable) + old(polygonTables[i]);
      ghost var drawn := RowDrawn(old(edges), old(polygons), old(activeEdgePairTable), act, i,
                                  zeroLimit, old(frameBuffer[..]), i * width, width, fillColor);
      CountedDownIs(drawn.polygons, polygons, act);
      frameOffset := frameOffset - width;
    }

    /** The state is the one drawing the rows of done, in order, makes from start. */
    ghost predicate DrawnFrom(start: DrawState, done: seq<int>)
      reads this, zBuffer, frameBuffer
    {
      0 <= width && RowsIn(done, |polygonTables|)
      && State() == RowsDrawn(start, polygonTables, done, zeroLimit, width, fillColor)
    }

    /** DrawRow, seen as one more row of the fold that started at start. */
    method DrawNextRow(i: int, ghost start: DrawState, ghost done: seq<int>)
      requires Valid() && 0 <= i < height && frameOffset == i * width
      requires 0 <= i * width && i * width + width <= frameBuffer.Length
      requires DrawnFrom(start, done)
      modifies this, zBuffer, frameBuffer
      ensures Valid() && frameBuffer == old(frameBuffer) && frameOffset == old(frameOffset) - width
      ensures drawnRows == old(drawnRows) + [i]
      ensures forall k :: 0 <= k < frameBuffer.Length && !(i * width <= k < i * width + width) ==>
                frameBuffer[k] == old(frameBuffer[k])
      ensures polygonTables == old(polygonTables) && numPolygon == old(numPolygon)
      ensures mvp == old(mvp) && viewDir == old(viewDir)
      ensures DrawnFrom(start, done + [i])
    {
      RowsDrawnStep(start, polygonTables, done, i, zeroLimit, width, fillColor);
      DrawRow(i);
    }

    /** draw: the rows of the frame are drawn from the top one (height - 1) down to row 0; row i
        occupies pixels i * width up to (i + 1) * width of the frame. */
    method Draw(buffer: array<Pixel>)
      requires Valid() && buffer.Length >= width * height
      modifies this, zBuffer, buffer
      ensures Valid() && frameBuffer == buffer && frameOffset == -width
      ensures drawnRows == old(drawnRows) + RowsDown(height)
      ensures forall k :: width * height <= k < buffer.Length ==> buffer[k] == old(buffer[k])
      ensures polygonTables == old(polygonTables) && numPolygon == old(numPolygon)
      ensures mvp == old(mvp) && viewDir == old(viewDir)
      ensures RowsIn(RowsDown(height), |polygonTables|)
      ensures State() == RowsDrawn(DrawState(old(edges), old(polygons), old(activePolygonTable),
                                             old(activeEdgePairTable), old(zBuffer[..]), old(buffer[..])),
                                   polygonTables, RowsDown(height), zeroLimit, width, fillColor)
    {
      frameBuffer := buffer;
      frameOffset := (height - 1) * width;
      ghost var start := State();
      ghost var done: seq<int> := [];
      var i := height - 1;
      while i >= 0
        invariant -1 <= i < height
        invariant Valid() && frameBuffer == buffer && frameOffset == i * width
        invariant done == RowsDown(height)[..height - 1 - i]
        invariant drawnRows == old(drawnRows) + done
        invariant forall k :: width * height <= k < buffer.Length ==> buffer[k] == old(buffer[k])
        invariant polygonTables == old(polygonTables) && numPolygon == old(numPolygon)
        invariant mvp == old(mvp) && viewDir == old(viewDir)
        invariant DrawnFrom(start, done)
        decreases i + 1
      {
        RowOffset(i, width, height);
        DrawNextRow(i, start, done);
        assert RowsDown(height)[..height - i] == done + [i];
        done := done + [i];
        assert (i - 1) * width == i * width - width;
        i := i - 1;
      }
      assert done == RowsDown(height);
    }
  }
}

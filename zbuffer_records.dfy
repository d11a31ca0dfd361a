/** The records of the scanline rasteriser (edges, active edge pairs, polygons) and the
    value-level operations on them: truncation to int, building an edge from two points,
    building an edge pair, stepping an edge by one row and undoing that step.
    Records that the source shares by pointer are stored once in a per-frame sequence
    (an arena) and referred to by their index in it. */
module ZBufferRecords {
  import opened HelperTools
  import opened Geometry

  /** A four-byte pixel or colour. */
  type Pixel = s: seq<byte> | |s| == 4 witness [0, 0, 0, 0]

  /** The frame's background colour. */
  const BG_COLOR: Pixel := [150, 150, 150, 255]

  /** -numeric_limits<float>::max(), the depth of an empty column. */
  const NEG_MAX_FLOAT: real := -340282346638528859811704183484516925440.0

  /** How close two x positions must be to count as the same pixel (0.5f). */
  const SAME_PIXEL_LIMIT: real := 0.5

  /** An edge: its upmost point, the per-row x step and the number of rows it has left.
      For an edge spanning a single row (dy == 1 when built) dx holds the ending x instead
      of a step. */
  datatype ZEdge = ZEdge(x: real, y: int, z: real, dx: real, dy: int)

  /** A pair of edges of one polygon bounding the span drawn on the current row, with the
      depth at each end and the plane's depth steps along x and along a row. */
  datatype ActiveEdgePair = ActiveEdgePair(leftEdge: nat, rightEdge: nat, zL: real, zR: real,
                                           dzX: real, dzY: real, polygon: nat)

  /** A polygon: its depth plane, colour, remaining rows, the edges it owns and the edges
      still waiting for a partner (a subset of its own). `textured` is whether its texture
      list pointer is set. */
  datatype ZPolygon = ZPolygon(depthPlane: Vec4, color: Pixel, dy: int, edges: seq<nat>,
                               unpairedEdges: seq<nat>, textured: bool)

  /** A polygon as freshly allocated: no edges, no pending edges, no texture list. */
  function NewPolygon(depthPlane: Vec4): (p: ZPolygon)
    ensures !p.textured && p.edges == [] && p.unpairedEdges == []
    ensures p.depthPlane == depthPlane
  {
    ZPolygon(depthPlane, [0, 0, 0, 0], 0, [], [], false)
  }

  // ---------------------------------------------------------------------------
  // static_cast<int>
  // ---------------------------------------------------------------------------

  /** t is r with its fraction dropped: the whole number at or below a non-negative r and
      within one of it, or at or above a negative r and within one of it. */
  predicate TruncOf(t: int, r: real)
  {
    && (0.0 <= r ==> 0 <= t && t as real <= r < t as real + 1.0)
    && (r < 0.0 ==> t <= 0 && t as real - 1.0 < r <= t as real)
  }

  /** Conversion of a float to int, which drops the fraction (rounds toward zero). */
  function Trunc(r: real): int
  {
    if r >= 0.0 then r.Floor else -((-r).Floor)
  }

  /** Trunc drops exactly the fraction. */
  lemma TruncDropsFraction(r: real)
    ensures TruncOf(Trunc(r), r)
  {
  }

  /** Truncation is monotone, keeps the sign and is exact on whole numbers. */
  lemma TruncProperties(a: real, b: real)
    ensures a <= b ==> Trunc(a) <= Trunc(b)
    ensures a >= 0.0 ==> 0 <= Trunc(a) && Trunc(a) as real <= a
    ensures a < 0.0 ==> Trunc(a) <= 0 && a <= Trunc(a) as real
  {
    if a <= b {
      if a >= 0.0 {
        assert a.Floor <= b.Floor;
      } else if b < 0.0 {
        assert (-b).Floor <= (-a).Floor;
      }
    }
  }

  /** A value between 0 and a whole bound truncates to between 0 and that bound. */
  lemma TruncWithin(a: real, bound: int)
    requires 0.0 <= a <= bound as real
    ensures 0 <= Trunc(a) <= bound
  {
    TruncProperties(a, bound as real);
    assert Trunc(bound as real) == bound;
  }

  // ---------------------------------------------------------------------------
  // generateEdge
  // ---------------------------------------------------------------------------

  /** The endpoint an edge starts from: the one with the larger y (p1 on a tie). */
  function Upper(p1: Vec3, p2: Vec3): (u: Vec3)
    ensures (u == p1 || u == p2) && u.y >= p1.y && u.y >= p2.y
    ensures p1.y == p2.y ==> u == p1
  {
    if p1.y < p2.y then p2 else p1
  }

  /** The endpoint an edge ends at: the other one of the two. */
  function Lower(p1: Vec3, p2: Vec3): (l: Vec3)
    ensures l.y <= p1.y && l.y <= p2.y
    ensures (l == p1 && Upper(p1, p2) == p2) || (l == p2 && Upper(p1, p2) == p1)
  {
    if p1.y < p2.y then p1 else p2
  }

  /** generateEdge: the edge from the upper to the lower endpoint, with the polygon's row
      range [bottom, top] widened to cover it. */
  function GenerateEdge(p1: Vec3, p2: Vec3, top: int, bottom: int): (r: (ZEdge, int, int))
    ensures var (e, top', bottom') := r;
            && Upper(p1, p2).y >= Lower(p1, p2).y
            && e.x == Upper(p1, p2).x && e.z == Upper(p1, p2).z && e.y == Trunc(Upper(p1, p2).y)
            && e.dy >= 1 && e.y - e.dy + 1 == Trunc(Lower(p1, p2).y)
            && (e.dy == 1 ==> e.dx == Lower(p1, p2).x)
            && top' == (if e.y > top then e.y else top)
            && bottom' == (if e.y - e.dy + 1 < bottom then e.y - e.dy + 1 else bottom)
            && top' >= top && bottom' <= bottom && bottom' <= e.y - e.dy + 1 && e.y <= top'
  {
    var (up, low) := if p1.y < p2.y then Swap((p1, p2)) else (p1, p2);
    var edgeTop := Trunc(up.y);
    var edgeBottom := Trunc(low.y);
    TruncProperties(low.y, up.y);
    var dy := edgeTop - edgeBottom + 1;
    var dx := if dy != 1 then -(up.x - low.x) / dy as real else low.x;
    (ZEdge(up.x, edgeTop, up.z, dx, dy),
     if edgeTop > top then edgeTop else top,
     if edgeBottom < bottom then edgeBottom else bottom)
  }

  /** Where an edge came from: the x of its two endpoints and its initial row count.
      Ghost bookkeeping only; the source keeps none of it. */
  datatype EdgeOrigin = EdgeOrigin(x1: real, x2: real, dy0: int)

  ghost function OriginOf(p1: Vec3, p2: Vec3): EdgeOrigin
  {
    var e := GenerateEdge(p1, p2, 0, 0).0;
    EdgeOrigin(Upper(p1, p2).x, Lower(p1, p2).x, e.dy)
  }

  /** The invariant of an edge on a row of width `width`: its endpoints lie on the row's
      pixel range [0, width-2] that clipping leaves, it has between 0 and its initial number
      of rows left, and its x is where the segment is after the rows already walked. */
  ghost predicate EdgeOk(e: ZEdge, o: EdgeOrigin, width: int)
  {
    && 0.0 <= o.x1 <= (width - 2) as real && 0.0 <= o.x2 <= (width - 2) as real
    && o.dy0 >= 1
    && 0 <= e.dy <= o.dy0
    && (o.dy0 == 1 ==> e.dy == 1 && e.x == o.x1)
    && (o.dy0 != 1 ==>
          e.dx == (o.x2 - o.x1) / o.dy0 as real
          && e.x == o.x1 + (o.dy0 - e.dy) as real * e.dx)
  }

  /** A freshly generated edge between two points of the clipped row range satisfies the
      edge invariant. */
  lemma GeneratedEdgeOk(p1: Vec3, p2: Vec3, top: int, bottom: int, width: int)
    requires 0.0 <= p1.x <= (width - 2) as real && 0.0 <= p2.x <= (width - 2) as real
    ensures EdgeOk(GenerateEdge(p1, p2, top, bottom).0, OriginOf(p1, p2), width)
  {
    var e := GenerateEdge(p1, p2, top, bottom).0;
    assert e == GenerateEdge(p1, p2, 0, 0).0;
  }

  /** The x step of a sloped edge takes it from its upper endpoint to its lower one in
      exactly its number of rows. */
  lemma EdgeReachesEnd(p1: Vec3, p2: Vec3, top: int, bottom: int)
    requires GenerateEdge(p1, p2, top, bottom).0.dy != 1
    ensures var e := GenerateEdge(p1, p2, top, bottom).0;
            e.x + e.dy as real * e.dx == Lower(p1, p2).x
  {
  }

  /** An edge satisfying the invariant lies on its segment, so within [0, width-2]; and the
      step of a sloped edge is at most width-2 in size. */
  lemma EdgeXInRange(e: ZEdge, o: EdgeOrigin, width: int)
    requires EdgeOk(e, o, width)
    ensures 0.0 <= e.x <= (width - 2) as real
    ensures Min(o.x1, o.x2) <= e.x <= Max(o.x1, o.x2)
    ensures o.dy0 != 1 ==> -(width - 2) as real <= e.dx <= (width - 2) as real
  {
    if o.dy0 != 1 {
      OnSegment(o.x1, o.x2, o.dy0, o.dy0 - e.dy, e.dx, e.x);
      OnSegment(0.0, o.x2 - o.x1, o.dy0, 1, e.dx, e.dx);
    }
  }

  /** After k of n equal steps from a towards b, the position lies between a and b. */
  lemma OnSegment(a: real, b: real, n: int, k: int, step: real, x: real)
    requires 0 <= k <= n && n >= 1
    requires step == (b - a) / n as real
    requires x == a + k as real * step
    ensures Min(a, b) <= x <= Max(a, b)
  {
    var num, den := k as real, n as real;
    Interpolated(a, b, num, den);
    assert x == a + (b - a) * num / den;
  }

  // ---------------------------------------------------------------------------
  // Edge stepping in drawEdgePair
  // ---------------------------------------------------------------------------

  /** One row of progress for an edge: with rows left it loses one and moves by its step;
      without, it stalls. */
  function StepEdge(e: ZEdge): (r: ZEdge)
    ensures e.dy > 0 ==> r == e.(dy := e.dy - 1, x := e.x + e.dx)
    ensures e.dy <= 0 ==> r == e
  {
    if e.dy > 0 then e.(dy := e.dy - 1, x := e.x + e.dx) else e
  }

  /** The roll-back of a continuation splice: one row given back and the step undone. */
  function RollBack(e: ZEdge): (r: ZEdge)
    ensures r.dy == e.dy + 1 && r.x == e.x - e.dx
    ensures r.y == e.y && r.z == e.z && r.dx == e.dx
  {
    e.(dy := e.dy + 1, x := e.x - e.dx)
  }

  /** Rolling back a step restores the edge. */
  lemma RollBackUndoesStep(e: ZEdge)
    requires e.dy > 0
    ensures RollBack(StepEdge(e)) == e
  {
  }

  /** Stepping a sloped edge keeps the edge invariant, and leaves it with fewer rows than it
      started with or stalled at zero. */
  lemma StepKeepsEdgeOk(e: ZEdge, o: EdgeOrigin, width: int)
    requires EdgeOk(e, o, width) && o.dy0 != 1
    ensures EdgeOk(StepEdge(e), o, width)
    ensures StepEdge(e).dy < o.dy0
  {
    if e.dy > 0 {
      var r := StepEdge(e);
      assert (o.dy0 - r.dy) as real * e.dx == (o.dy0 - e.dy) as real * e.dx + e.dx;
    }
  }

  /** Rolling back a sloped edge that has rows to give back keeps the edge invariant. */
  lemma RollBackKeepsEdgeOk(e: ZEdge, o: EdgeOrigin, width: int)
    requires EdgeOk(e, o, width) && o.dy0 != 1 && e.dy < o.dy0
    ensures EdgeOk(RollBack(e), o, width)
  {
    var r := RollBack(e);
    assert (o.dy0 - r.dy) as real * e.dx == (o.dy0 - e.dy) as real * e.dx - e.dx;
  }

  /** Stepping at index i of an edge arena. */
  function StepAt(es: seq<ZEdge>, i: nat): (r: seq<ZEdge>)
    requires i < |es|
    ensures |r| == |es| && r[i] == StepEdge(es[i])
    ensures forall j :: 0 <= j < |es| && j != i ==> r[j] == es[j]
  {
    es[i := StepEdge(es[i])]
  }

  // ---------------------------------------------------------------------------
  // generateEdgePair
  // ---------------------------------------------------------------------------

  /** The plane's depth step along x: zero unless the plane's z coefficient reaches
      zeroLimit (a plain comparison, not an absolute value). */
  function DepthStepX(plane: Vec4, zeroLimit: real): (d: real)
    requires zeroLimit > 0.0
    ensures plane.z < zeroLimit ==> d == 0.0
    ensures plane.z >= zeroLimit ==> plane.x + d * plane.z == 0.0
  {
    if plane.z < zeroLimit then 0.0 else -plane.x / plane.z
  }

  /** The plane's depth step from one row to the next row down. */
  function DepthStepY(plane: Vec4, zeroLimit: real): (d: real)
    requires zeroLimit > 0.0
    ensures plane.z < zeroLimit ==> d == 0.0
    ensures plane.z >= zeroLimit ==> d * plane.z == plane.y
  {
    if plane.z < zeroLimit then 0.0 else plane.y / plane.z
  }

  /** generateEdgePair: a pair starting at the depths of its two edges' upmost points. */
  function GenerateEdgePair(left: nat, right: nat, edges: seq<ZEdge>, plane: Vec4,
                            polygon: nat, zeroLimit: real): (p: ActiveEdgePair)
    requires left < |edges| && right < |edges|
    requires zeroLimit > 0.0
    ensures p.leftEdge == left && p.rightEdge == right && p.polygon == polygon
    ensures p.zL == edges[left].z && p.zR == edges[right].z
    ensures p.dzX == DepthStepX(plane, zeroLimit) && p.dzY == DepthStepY(plane, zeroLimit)
  {
    ActiveEdgePair(left, right, edges[left].z, edges[right].z,
                   DepthStepX(plane, zeroLimit), DepthStepY(plane, zeroLimit), polygon)
  }

  /** Depth of the plane at (x, y), when its z coefficient is non-zero. */
  function PlaneDepth(plane: Vec4, x: real, y: real): real
    requires plane.z != 0.0
  {
    -(plane.x * x + plane.y * y + plane.w) / plane.z
  }

  /** The pair's depth steps follow the plane: one pixel right adds dzX, and moving down a
      row while x moves by dx adds dzX * dx + dzY, which is the update drawEdgePair makes. */
  lemma DepthStepsFollowPlane(plane: Vec4, zeroLimit: real, x: real, y: real, dx: real)
    requires zeroLimit > 0.0 && plane.z >= zeroLimit
    ensures PlaneDepth(plane, x + 1.0, y) == PlaneDepth(plane, x, y) + DepthStepX(plane, zeroLimit)
    ensures PlaneDepth(plane, x + dx, y - 1.0) ==
            PlaneDepth(plane, x, y) + DepthStepX(plane, zeroLimit) * dx + DepthStepY(plane, zeroLimit)
  {
    var c := plane.z;
    assert PlaneDepth(plane, x + 1.0, y) * c == PlaneDepth(plane, x, y) * c - plane.x;
    assert PlaneDepth(plane, x + dx, y - 1.0) * c == PlaneDepth(plane, x, y) * c - plane.x * dx + plane.y;
  }

  /** The pairing rule of insertActiveEdgePairs: the left edge starts left of the right one
      (up to zeroLimit), and on a tie it has the smaller step. */
  predicate PairOrdered(l: ZEdge, r: ZEdge, zeroLimit: real)
  {
    l.x <= r.x + zeroLimit && (Abs(l.x - r.x) < zeroLimit ==> l.dx <= r.dx)
  }

  /** Whether insertActiveEdgePairs swaps a candidate pair before inserting it. */
  predicate NeedsSwap(l: ZEdge, r: ZEdge, zeroLimit: real)
  {
    l.x > r.x + zeroLimit || (Abs(l.x - r.x) < zeroLimit && l.dx > r.dx)
  }

  /** The swap makes any pair ordered. */
  lemma SwapOrders(l: ZEdge, r: ZEdge, zeroLimit: real)
    requires zeroLimit > 0.0
    ensures NeedsSwap(l, r, zeroLimit) ==> PairOrdered(r, l, zeroLimit)
    ensures !NeedsSwap(l, r, zeroLimit) ==> PairOrdered(l, r, zeroLimit)
  {
  }

  // ---------------------------------------------------------------------------
  // Stable filtering (std::remove_if followed by erase)
  // ---------------------------------------------------------------------------

  /** The elements of s that satisfy keep, in their original order. */
  function Filter<T>(s: seq<T>, keep: T -> bool): (r: seq<T>)
    ensures |r| <= |s|
  {
    if s == [] then [] else (if keep(s[0]) then [s[0]] else []) + Filter(s[1..], keep)
  }

  /** The same for every element at once. */
  lemma FilterMembers<T>(s: seq<T>, keep: T -> bool)
    ensures forall x :: x in Filter(s, keep) <==> x in s && keep(x)
  {
    forall x {
      FilterMembership(s, keep, x);
    }
  }

  /** An element survives filtering exactly when it was there and is kept. */
  lemma {:induction false} FilterMembership<T>(s: seq<T>, keep: T -> bool, x: T)
    ensures x in Filter(s, keep) <==> x in s && keep(x)
  {
    if s != [] {
      FilterMembership(s[1..], keep, x);
      assert s == [s[0]] + s[1..];
    }
  }

  /** Filtering distributes over concatenation, so survivors keep their relative order. */
  lemma {:induction false} FilterAppend<T>(a: seq<T>, b: seq<T>, keep: T -> bool)
    ensures Filter(a + b, keep) == Filter(a, keep) + Filter(b, keep)
  {
    if a != [] {
      assert (a + b)[0] == a[0];
      assert (a + b)[1..] == a[1..] + b;
      FilterAppend(a[1..], b, keep);
    } else {
      assert a + b == b;
    }
  }

  /** Filtering never adds occurrences. */
  lemma {:induction false} FilterMultiset<T>(s: seq<T>, keep: T -> bool)
    ensures multiset(Filter(s, keep)) <= multiset(s)
  {
    if s != [] {
      FilterMultiset(s[1..], keep);
      assert s == [s[0]] + s[1..];
    }
  }
}

/** What drawEdgePair does to an active edge pair after drawing its span, on values: both
    edges move down one row, the end depths follow them, and an edge that has run out of rows
    is continued by a pending edge of the polygon that starts where it ended (a continuation
    splice), with the other edge's step undone so that it is not advanced twice. */
module PairAdvance {
  import opened HelperTools
  import opened ZBufferRecords
  import opened EdgePairing

  // ---------------------------------------------------------------------------
  // Invariants of the edge arena, the pairs and the pools
  // ---------------------------------------------------------------------------

  /** Every edge of the arena satisfies the edge invariant for where it came from. */
  ghost predicate ArenaOk(es: seq<ZEdge>, os: seq<EdgeOrigin>, width: int)
  {
    |os| == |es| && forall i :: 0 <= i < |es| ==> EdgeOk(es[i], os[i], width)
  }

  /** An edge of the arena built with more than one row, so one that advances row by row. */
  ghost predicate Sloped(os: seq<EdgeOrigin>, e: nat)
  {
    e < |os| && os[e].dy0 != 1
  }

  /** Both edges of a pair advance row by row. */
  ghost predicate PairOk(p: ActiveEdgePair, os: seq<EdgeOrigin>)
  {
    Sloped(os, p.leftEdge) && Sloped(os, p.rightEdge)
  }

  /** Every edge waiting in a pool advances row by row. */
  ghost predicate PoolOk(pool: seq<nat>, os: seq<EdgeOrigin>)
  {
    forall i :: 0 <= i < |pool| ==> Sloped(os, pool[i])
  }

  /** An edge of the arena that satisfies the invariant is sloped exactly when its row count
      is not 1. */
  lemma SlopedByRows(es: seq<ZEdge>, os: seq<EdgeOrigin>, width: int, e: nat)
    requires ArenaOk(es, os, width) && e < |es|
    ensures es[e].dy != 1 ==> Sloped(os, e)
  {
  }

  // ---------------------------------------------------------------------------
  // The x range of the span
  // ---------------------------------------------------------------------------

  /** The first column of the pair's span. */
  function SpanStart(es: seq<ZEdge>, p: ActiveEdgePair): int
    requires p.leftEdge < |es|
  {
    Trunc(es[p.leftEdge].x)
  }

  /** The last column of the pair's span: where the right edge is, or for a pair whose two
      edges are the same edge, that edge's dx field. */
  function SpanEnd(es: seq<ZEdge>, p: ActiveEdgePair): int
    requires p.leftEdge < |es| && p.rightEdge < |es|
  {
    Trunc(if p.leftEdge == p.rightEdge then es[p.leftEdge].dx else es[p.rightEdge].x)
  }

  /** The span's columns are its edges' positions with the fraction dropped: start_x from the
      left edge's x, end_x from the right edge's x or, when both ends are one edge, its dx. */
  lemma SpanColumns(es: seq<ZEdge>, p: ActiveEdgePair)
    requires p.leftEdge < |es| && p.rightEdge < |es|
    ensures TruncOf(SpanStart(es, p), es[p.leftEdge].x)
    ensures p.leftEdge == p.rightEdge ==> TruncOf(SpanEnd(es, p), es[p.leftEdge].dx)
    ensures p.leftEdge != p.rightEdge ==> TruncOf(SpanEnd(es, p), es[p.rightEdge].x)
  {
    TruncDropsFraction(es[p.leftEdge].x);
    TruncDropsFraction(if p.leftEdge == p.rightEdge then es[p.leftEdge].dx else es[p.rightEdge].x);
  }

  /** A pair of sloped edges never reaches past the row: its span starts in [0, width-2] and
      ends at most at width-2. Two different edges also end at 0 or later; a shared edge with
      dx < 0 ends below 0, which drawEdgePair rejects as a bad pair. */
  lemma SpanInRow(es: seq<ZEdge>, os: seq<EdgeOrigin>, width: int, p: ActiveEdgePair)
    requires ArenaOk(es, os, width) && PairOk(p, os)
    ensures 0 <= SpanStart(es, p) <= width - 2
    ensures SpanEnd(es, p) <= width - 2
    ensures p.leftEdge != p.rightEdge ==> 0 <= SpanEnd(es, p)
  {
    var l, r := p.leftEdge, p.rightEdge;
    EdgeXInRange(es[l], os[l], width);
    EdgeXInRange(es[r], os[r], width);
    TruncWithin(es[l].x, width - 2);
    if l == r {
      var dx := es[l].dx;
      if dx >= 0.0 {
        TruncWithin(dx, width - 2);
      } else {
        TruncProperties(dx, 0.0);
      }
    } else {
      TruncWithin(es[r].x, width - 2);
    }
  }

  // ---------------------------------------------------------------------------
  // Stepping both edges
  // ---------------------------------------------------------------------------

  /** The depth update of drawEdgePair: each end depth moves along the plane by its edge's
      x step and one row. */
  function StepDepths(es: seq<ZEdge>, p: ActiveEdgePair): (q: ActiveEdgePair)
    requires p.leftEdge < |es| && p.rightEdge < |es|
    ensures q == p.(zL := q.zL, zR := q.zR)
    ensures q.zR - q.zL == p.zR - p.zL + p.dzX * (es[p.rightEdge].dx - es[p.leftEdge].dx)
  {
    p.(zL := p.zL + p.dzX * es[p.leftEdge].dx + p.dzY,
       zR := p.zR + p.dzX * es[p.rightEdge].dx + p.dzY)
  }

  /** Both edges step one row (the same edge twice when they coincide) and the end depths
      move by the plane's depth change along each edge. */
  function StepPair(es: seq<ZEdge>, p: ActiveEdgePair): (r: (seq<ZEdge>, ActiveEdgePair))
    requires p.leftEdge < |es| && p.rightEdge < |es|
    ensures |r.0| == |es|
    ensures forall j :: 0 <= j < |es| && j != p.leftEdge && j != p.rightEdge ==> r.0[j] == es[j]
    ensures p.leftEdge != p.rightEdge ==>
              r.0[p.leftEdge] == StepEdge(es[p.leftEdge]) && r.0[p.rightEdge] == StepEdge(es[p.rightEdge])
    ensures p.leftEdge == p.rightEdge ==> r.0[p.leftEdge] == StepEdge(StepEdge(es[p.leftEdge]))
    ensures r.1.leftEdge == p.leftEdge && r.1.rightEdge == p.rightEdge && r.1.polygon == p.polygon
    ensures r.1.dzX == p.dzX && r.1.dzY == p.dzY
  {
    (StepAt(StepAt(es, p.leftEdge), p.rightEdge), StepDepths(es, p))
  }

  /** Stepping keeps the arena invariant and leaves both edges of the pair with fewer rows
      than they were built with, so either may be rolled back once. */
  lemma StepPairKeepsArena(es: seq<ZEdge>, os: seq<EdgeOrigin>, width: int, p: ActiveEdgePair)
    requires ArenaOk(es, os, width) && PairOk(p, os)
    ensures var es' := StepPair(es, p).0;
            && ArenaOk(es', os, width)
            && es'[p.leftEdge].dy < os[p.leftEdge].dy0
            && es'[p.rightEdge].dy < os[p.rightEdge].dy0
  {
    var l, r := p.leftEdge, p.rightEdge;
    var es1 := StepAt(es, l);
    StepKeepsEdgeOk(es[l], os[l], width);
    assert ArenaOk(es1, os, width);
    StepKeepsEdgeOk(es1[r], os[r], width);
    var es2 := StepAt(es1, r);
    assert es2 == StepPair(es, p).0;
    assert ArenaOk(es2, os, width);
  }

  /** When the pair's end depths are the plane's depths at its two edges on row y, after a
      step with rows left on both (distinct) edges they are the plane's depths at the edges'
      new positions on the row below. */
  lemma StepPairFollowsPlane(es: seq<ZEdge>, p: ActiveEdgePair, plane: Vec4, zeroLimit: real, y: real)
    requires p.leftEdge < |es| && p.rightEdge < |es| && p.leftEdge != p.rightEdge
    requires zeroLimit > 0.0 && plane.z >= zeroLimit
    requires p.dzX == DepthStepX(plane, zeroLimit) && p.dzY == DepthStepY(plane, zeroLimit)
    requires es[p.leftEdge].dy > 0 && es[p.rightEdge].dy > 0
    requires p.zL == PlaneDepth(plane, es[p.leftEdge].x, y)
    requires p.zR == PlaneDepth(plane, es[p.rightEdge].x, y)
    ensures var (es', p') := StepPair(es, p);
            && p'.zL == PlaneDepth(plane, es'[p.leftEdge].x, y - 1.0)
            && p'.zR == PlaneDepth(plane, es'[p.rightEdge].x, y - 1.0)
  {
    var l, r := p.leftEdge, p.rightEdge;
    DepthStepsFollowPlane(plane, zeroLimit, es[l].x, y, es[l].dx);
    DepthStepsFollowPlane(plane, zeroLimit, es[r].x, y, es[r].dx);
  }

  // ---------------------------------------------------------------------------
  // Continuation splices
  // ---------------------------------------------------------------------------

  /** Whether the left edge is continued: it has run out of rows, the right one has not gone
      negative, and some pending edge starts within half a pixel of it. */
  predicate LeftContinues(es: seq<ZEdge>, pool: seq<nat>, p: ActiveEdgePair): (b: bool)
    requires p.leftEdge < |es| && p.rightEdge < |es| && AllIn(pool, |es|)
    ensures b <==> es[p.leftEdge].dy <= 0 && es[p.rightEdge].dy >= 0
                   && exists k :: 0 <= k < |pool| && Abs(es[pool[k]].x - es[p.leftEdge].x) < SAME_PIXEL_LIMIT
  {
    es[p.leftEdge].dy <= 0 && es[p.rightEdge].dy >= 0
    && FirstNear(pool, es, es[p.leftEdge].x, 0) >= 0
  }

  /** The same for the right edge. */
  predicate RightContinues(es: seq<ZEdge>, pool: seq<nat>, p: ActiveEdgePair): (b: bool)
    requires p.leftEdge < |es| && p.rightEdge < |es| && AllIn(pool, |es|)
    ensures b <==> es[p.rightEdge].dy <= 0 && es[p.leftEdge].dy >= 0
                   && exists k :: 0 <= k < |pool| && Abs(es[pool[k]].x - es[p.rightEdge].x) < SAME_PIXEL_LIMIT
  {
    es[p.rightEdge].dy <= 0 && es[p.leftEdge].dy >= 0
    && FirstNear(pool, es, es[p.rightEdge].x, 0) >= 0
  }

  /** The left splice: the first pending edge near the finished left edge takes its place and
      leaves the pool, the right edge gives back its step and the right depth goes back to
      zR0. Without a continuation nothing changes. */
  function SpliceLeft(es: seq<ZEdge>, pool: seq<nat>, p: ActiveEdgePair, zR0: real)
    : (r: (seq<ZEdge>, seq<nat>, ActiveEdgePair))
    requires p.leftEdge < |es| && p.rightEdge < |es| && AllIn(pool, |es|)
    ensures |r.0| == |es| && AllIn(r.1, |es|) && r.2.leftEdge < |es| && r.2.rightEdge == p.rightEdge
    ensures !LeftContinues(es, pool, p) ==> r == (es, pool, p)
    ensures LeftContinues(es, pool, p) ==>
              var n := r.2.leftEdge;
              && n in pool && NearX(es, n, es[p.leftEdge].x)
              && multiset(pool) == multiset(r.1) + multiset{n}
              && r.0 == es[p.rightEdge := RollBack(es[p.rightEdge])]
              && r.2 == p.(leftEdge := n, zL := es[n].z, zR := zR0)
  {
    if LeftContinues(es, pool, p) then
      var i := FirstNear(pool, es, es[p.leftEdge].x, 0);
      var n := pool[i];
      (es[p.rightEdge := RollBack(es[p.rightEdge])], Remove(pool, i),
       p.(leftEdge := n, zL := es[n].z, zR := zR0))
    else (es, pool, p)
  }

  /** The right splice, symmetric to the left one; zL0 is the left depth it restores. */
  function SpliceRight(es: seq<ZEdge>, pool: seq<nat>, p: ActiveEdgePair, zL0: real)
    : (r: (seq<ZEdge>, seq<nat>, ActiveEdgePair))
    requires p.leftEdge < |es| && p.rightEdge < |es| && AllIn(pool, |es|)
    ensures |r.0| == |es| && AllIn(r.1, |es|) && r.2.rightEdge < |es| && r.2.leftEdge == p.leftEdge
    ensures !RightContinues(es, pool, p) ==> r == (es, pool, p)
    ensures RightContinues(es, pool, p) ==>
              var n := r.2.rightEdge;
              && n in pool && NearX(es, n, es[p.rightEdge].x)
              && multiset(pool) == multiset(r.1) + multiset{n}
              && r.0 == es[p.leftEdge := RollBack(es[p.leftEdge])]
              && r.2 == p.(rightEdge := n, zR := es[n].z, zL := zL0)
  {
    if RightContinues(es, pool, p) then
      var j := FirstNear(pool, es, es[p.rightEdge].x, 0);
      var n := pool[j];
      (es[p.leftEdge := RollBack(es[p.leftEdge])], Remove(pool, j),
       p.(rightEdge := n, zR := es[n].z, zL := zL0))
    else (es, pool, p)
  }

  /** The whole update of drawEdgePair after the span: step, then the left splice, then the
      right splice on what the left one left. Returns the arena, the polygon's pool and the
      pair. */
  function AdvancePair(es: seq<ZEdge>, pool: seq<nat>, p: ActiveEdgePair)
    : (r: (seq<ZEdge>, seq<nat>, ActiveEdgePair))
    requires p.leftEdge < |es| && p.rightEdge < |es| && AllIn(pool, |es|)
    ensures |r.0| == |es| && AllIn(r.1, |es|) && r.2.leftEdge < |es| && r.2.rightEdge < |es|
    ensures r.2.polygon == p.polygon && r.2.dzX == p.dzX && r.2.dzY == p.dzY
  {
    var (es2, p2) := StepPair(es, p);
    var (es3, pool3, p3) := SpliceLeft(es2, pool, p2, p.zR);
    SpliceRight(es3, pool3, p3, p.zL)
  }

  /** The two splices never both happen: after a left splice the right edge has at least one
      row again, so it cannot be finished. */
  lemma AtMostOneSplice(es: seq<ZEdge>, pool: seq<nat>, p: ActiveEdgePair, zR0: real, zL0: real)
    requires p.leftEdge < |es| && p.rightEdge < |es| && AllIn(pool, |es|)
    requires LeftContinues(es, pool, p)
    ensures var (es3, pool3, p3) := SpliceLeft(es, pool, p, zR0);
            !RightContinues(es3, pool3, p3)
  {
  }

  /** The advance keeps every invariant drawing relies on: the arena invariant, a pair of
      sloped edges, a pool of sloped edges; and the pool only ever loses edges, at most one
      per row, each one it loses being the edge that continues the pair. */
  lemma AdvanceKeepsInvariant(es: seq<ZEdge>, os: seq<EdgeOrigin>, width: int,
                              pool: seq<nat>, p: ActiveEdgePair)
    requires ArenaOk(es, os, width) && PairOk(p, os)
    requires AllIn(pool, |es|) && PoolOk(pool, os)
    ensures var r := AdvancePair(es, pool, p);
            && ArenaOk(r.0, os, width) && PairOk(r.2, os) && PoolOk(r.1, os)
            && multiset(r.1) <= multiset(pool)
            && (forall e :: e in r.1 ==> e in pool)
            && |pool| - 1 <= |r.1| <= |pool|
  {
    var s2 := StepPair(es, p);
    StepPairKeepsArena(es, os, width, p);
    var s3 := SpliceLeft(s2.0, pool, s2.1, p.zR);
    SpliceLeftKeeps(s2.0, os, width, pool, s2.1, p.zR);
    if LeftContinues(s2.0, pool, s2.1) {
      AtMostOneSplice(s2.0, pool, s2.1, p.zR, p.zL);
      assert AdvancePair(es, pool, p) == s3;
    } else {
      assert s3 == (s2.0, pool, s2.1);
      SpliceRightKeeps(s2.0, os, width, pool, s2.1, p.zL);
    }
  }

  /** The left splice keeps the invariants when the right edge has a step to give back. */
  lemma SpliceLeftKeeps(es: seq<ZEdge>, os: seq<EdgeOrigin>, width: int,
                        pool: seq<nat>, p: ActiveEdgePair, zR0: real)
    requires ArenaOk(es, os, width) && PairOk(p, os)
    requires AllIn(pool, |es|) && PoolOk(pool, os)
    requires es[p.rightEdge].dy < os[p.rightEdge].dy0
    ensures var r := SpliceLeft(es, pool, p, zR0);
            && ArenaOk(r.0, os, width) && PairOk(r.2, os) && PoolOk(r.1, os)
            && multiset(r.1) <= multiset(pool)
            && (forall e :: e in r.1 ==> e in pool)
            && |pool| - 1 <= |r.1| <= |pool|
  {
    if LeftContinues(es, pool, p) {
      var r := SpliceLeft(es, pool, p, zR0);
      var q := p.rightEdge;
      RollBackKeepsEdgeOk(es[q], os[q], width);
      assert ArenaOk(r.0, os, width);
      InPoolSloped(pool, os, r.2.leftEdge);
      PoolShrinks(pool, r.1, r.2.leftEdge, os);
    }
  }

  /** The right splice keeps the invariants when the left edge has a step to give back. */
  lemma SpliceRightKeeps(es: seq<ZEdge>, os: seq<EdgeOrigin>, width: int,
                         pool: seq<nat>, p: ActiveEdgePair, zL0: real)
    requires ArenaOk(es, os, width) && PairOk(p, os)
    requires AllIn(pool, |es|) && PoolOk(pool, os)
    requires es[p.leftEdge].dy < os[p.leftEdge].dy0
    ensures var r := SpliceRight(es, pool, p, zL0);
            && ArenaOk(r.0, os, width) && PairOk(r.2, os) && PoolOk(r.1, os)
            && multiset(r.1) <= multiset(pool)
            && (forall e :: e in r.1 ==> e in pool)
            && |pool| - 1 <= |r.1| <= |pool|
  {
    if RightContinues(es, pool, p) {
      var r := SpliceRight(es, pool, p, zL0);
      var q := p.leftEdge;
      RollBackKeepsEdgeOk(es[q], os[q], width);
      assert ArenaOk(r.0, os, width);
      InPoolSloped(pool, os, r.2.rightEdge);
      PoolShrinks(pool, r.1, r.2.rightEdge, os);
    }
  }

  lemma InPoolSloped(pool: seq<nat>, os: seq<EdgeOrigin>, n: nat)
    requires PoolOk(pool, os) && n in pool
    ensures Sloped(os, n)
  {
    var k :| 0 <= k < |pool| && pool[k] == n;
  }

  /** A pool that loses one edge keeps its remaining edges and its invariant. */
  lemma PoolShrinks(pool: seq<nat>, pool': seq<nat>, n: nat, os: seq<EdgeOrigin>)
    requires PoolOk(pool, os) && multiset(pool) == multiset(pool') + multiset{n}
    ensures PoolOk(pool', os) && multiset(pool') <= multiset(pool)
    ensures forall e :: e in pool' ==> e in pool
    ensures |pool'| == |pool| - 1
  {
    forall e | e in pool'
      ensures e in pool
    {
      assert e in multiset(pool');
      assert e in multiset(pool);
    }
    forall i | 0 <= i < |pool'|
      ensures Sloped(os, pool'[i])
    {
      assert pool'[i] in pool;
      InPoolSloped(pool, os, pool'[i]);
    }
    assert |multiset(pool)| == |multiset(pool')| + 1;
  }
}

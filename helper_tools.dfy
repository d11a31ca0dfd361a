/** Plane and clip math of the rasteriser: plane equations, depth from a plane,
    Cohen-Sutherland outcodes and line clipping, and texture-coordinate wrap-around.
    Coordinates are exact reals; IEEE rounding is not modelled. */
module HelperTools {

  datatype Vec3 = Vec3(x: real, y: real, z: real)

  /** A plane a*x + b*y + c*z + d = 0, stored as (x, y, z, w) = (a, b, c, d). */
  datatype Vec4 = Vec4(x: real, y: real, z: real, w: real)

  /** The float epsilon below which a plane coefficient counts as zero (1e-3f). */
  const FLT_EPS: real := 0.001

  function Abs(r: real): real { if r < 0.0 then -r else r }

  function Dot(a: Vec3, b: Vec3): real { a.x * b.x + a.y * b.y + a.z * b.z }

  /** The value of the plane's left-hand side at a point; zero exactly on the plane. */
  function PlaneAt(plane: Vec4, x: real, y: real, z: real): real
  {
    plane.x * x + plane.y * y + plane.z * z + plane.w
  }

  // ---------------------------------------------------------------------------
  // Plane equation and depth from plane
  // ---------------------------------------------------------------------------

  /** The plane through `point` with normal `normal`. */
  function ComputePlane(normal: Vec3, point: Vec3): (plane: Vec4)
    ensures plane.x == normal.x && plane.y == normal.y && plane.z == normal.z
    ensures PlaneAt(plane, point.x, point.y, point.z) == 0.0
  {
    Vec4(normal.x, normal.y, normal.z, -Dot(normal, point))
  }

  /** The depth z at (x, y) on the plane, or 0 when the plane is (nearly) parallel to z. */
  function ComputeZ(plane: Vec4, x: real, y: real): (z: real)
    ensures Abs(plane.z) < FLT_EPS ==> z == 0.0
    ensures Abs(plane.z) >= FLT_EPS ==> PlaneAt(plane, x, y, z) == 0.0
  {
    if Abs(plane.z) < FLT_EPS then 0.0
    else -(plane.x * x + plane.y * y + plane.w) / plane.z
  }

  /** The y at (x, z) on the plane, or 0 when the plane is (nearly) parallel to y. */
  function ComputeY(plane: Vec4, x: real, z: real): (y: real)
    ensures Abs(plane.y) < FLT_EPS ==> y == 0.0
    ensures Abs(plane.y) >= FLT_EPS ==> PlaneAt(plane, x, y, z) == 0.0
  {
    if Abs(plane.y) < FLT_EPS then 0.0
    else -(plane.x * x + plane.z * z + plane.w) / plane.y
  }

  /** The x at (y, z) on the plane, or 0 when the plane is (nearly) parallel to x. */
  function ComputeX(plane: Vec4, y: real, z: real): (x: real)
    ensures Abs(plane.x) < FLT_EPS ==> x == 0.0
    ensures Abs(plane.x) >= FLT_EPS ==> PlaneAt(plane, x, y, z) == 0.0
  {
    if Abs(plane.x) < FLT_EPS then 0.0
    else -(plane.z * z + plane.y * y + plane.w) / plane.x
  }

  /** A plane equation has at most one solution along an axis whose coefficient is non-zero. */
  lemma SolutionUnique(c: real, z1: real, z2: real, rest: real)
    requires c != 0.0
    requires rest + c * z1 == 0.0 && rest + c * z2 == 0.0
    ensures z1 == z2
  {
    assert c * (z1 - z2) == 0.0;
  }

  /** Depth from the plane built through a point gives back that point's depth. */
  lemma DepthOfPlanePoint(normal: Vec3, p: Vec3)
    requires Abs(normal.z) >= FLT_EPS
    ensures ComputeZ(ComputePlane(normal, p), p.x, p.y) == p.z
  {
    var plane := ComputePlane(normal, p);
    var z := ComputeZ(plane, p.x, p.y);
    SolutionUnique(plane.z, z, p.z, plane.x * p.x + plane.y * p.y + plane.w);
  }

  /** The same for computeY. */
  lemma YOfPlanePoint(normal: Vec3, p: Vec3)
    requires Abs(normal.y) >= FLT_EPS
    ensures ComputeY(ComputePlane(normal, p), p.x, p.z) == p.y
  {
    var plane := ComputePlane(normal, p);
    var y := ComputeY(plane, p.x, p.z);
    SolutionUnique(plane.y, y, p.y, plane.x * p.x + plane.z * p.z + plane.w);
  }

  /** The same for computeX. */
  lemma XOfPlanePoint(normal: Vec3, p: Vec3)
    requires Abs(normal.x) >= FLT_EPS
    ensures ComputeX(ComputePlane(normal, p), p.y, p.z) == p.x
  {
    var plane := ComputePlane(normal, p);
    var x := ComputeX(plane, p.y, p.z);
    SolutionUnique(plane.x, x, p.x, plane.y * p.y + plane.z * p.z + plane.w);
  }

  // ---------------------------------------------------------------------------
  // Cohen-Sutherland outcodes
  // ---------------------------------------------------------------------------

  type OutCode = bv8

  const INSIDE: OutCode := 0
  const LEFT: OutCode := 1
  const RIGHT: OutCode := 2
  const BOTTOM: OutCode := 4
  const TOP: OutCode := 8

  datatype ClipResult = Rejected | Accepted

  /** The closed clip rectangle [0, width-1] x [0, height-1]. */
  predicate Inside(x: real, y: real, width: int, height: int)
  {
    0.0 <= x <= (width - 1) as real && 0.0 <= y <= (height - 1) as real
  }

  /** The outcode of (x, y): which sides of the clip rectangle the point lies beyond.
      LEFT and RIGHT exclude each other, LEFT winning; so do BOTTOM and TOP, BOTTOM winning. */
  function ComputeOutCode(x: real, y: real, width: int, height: int): (code: OutCode)
    ensures (code & LEFT != 0) <==> x < 0.0
    ensures (code & RIGHT != 0) <==> !(x < 0.0) && x > (width - 1) as real
    ensures (code & BOTTOM != 0) <==> y < 0.0
    ensures (code & TOP != 0) <==> !(y < 0.0) && y > (height - 1) as real
    ensures code & 0xF0 == 0
    ensures code == INSIDE <==> Inside(x, y, width, height)
  {
    var horizontal := if x < 0.0 then LEFT else if x > (width - 1) as real then RIGHT else INSIDE;
    var vertical := if y < 0.0 then BOTTOM else if y > (height - 1) as real then TOP else INSIDE;
    INSIDE | horizontal | vertical
  }

  /** The number of outcode bits set. */
  function BitCount(c: OutCode): nat
  {
    (if c & LEFT != 0 then 1 else 0) + (if c & RIGHT != 0 then 1 else 0)
    + (if c & BOTTOM != 0 then 1 else 0) + (if c & TOP != 0 then 1 else 0)
  }

  /** How far the clipping loop is from its end: 0 once it rejects, otherwise one more
      than the number of sides that either endpoint lies beyond. */
  function ClipRank(c0: OutCode, c1: OutCode): nat
  {
    if c0 & c1 != 0 then 0 else 1 + BitCount(c0 | c1)
  }

  /** Removing a bit from a set of outcode bits lowers the count. */
  lemma BitCountShrinks(small: OutCode, big: OutCode, bit: OutCode)
    requires small & 0xF0 == 0 && big & 0xF0 == 0
    requires small & !big == 0
    requires bit == LEFT || bit == RIGHT || bit == BOTTOM || bit == TOP
    requires big & bit != 0 && small & bit == 0
    ensures BitCount(small) < BitCount(big)
  {
  }

  /** The side a clipping pass handles for an outside point: the first of TOP, BOTTOM,
      RIGHT and LEFT that its outcode has. */
  function HandledSide(out: OutCode): OutCode
  {
    if out & TOP != 0 then TOP
    else if out & BOTTOM != 0 then BOTTOM
    else if out & RIGHT != 0 then RIGHT
    else LEFT
  }

  function Min(a: real, b: real): real { if a <= b then a else b }
  function Max(a: real, b: real): real { if a <= b then b else a }

  /** a + (b - a) * num / den lies between a and b when num / den is in [0, 1]. */
  lemma Interpolated(a: real, b: real, num: real, den: real)
    requires den != 0.0
    requires (0.0 <= num <= den) || (den <= num <= 0.0)
    ensures Min(a, b) <= a + (b - a) * num / den <= Max(a, b)
  {
    var t := num / den;
    assert 0.0 <= t <= 1.0 by {
      if den > 0.0 {
        assert num <= den * 1.0;
      } else {
        assert -num <= -den;
      }
    }
    assert (b - a) * num / den == (b - a) * t;
    if a <= b {
      assert 0.0 <= (b - a) * t <= (b - a);
    } else {
      assert (b - a) <= (b - a) * t <= 0.0;
    }
  }

  /** The boundary point of one clipping pass: the chosen outside endpoint (the first one
      if its outcode is non-zero, otherwise the second) is moved onto the line of the side
      it violates, along the line through the two current endpoints. */
  function ClipPoint(x0: real, y0: real, x1: real, y1: real, width: int, height: int): (p: (real, real))
    requires ComputeOutCode(x0, y0, width, height) | ComputeOutCode(x1, y1, width, height) != 0
    requires ComputeOutCode(x0, y0, width, height) & ComputeOutCode(x1, y1, width, height) == 0
    // the moved point lands on the boundary line of the side it violated ...
    ensures var c0 := ComputeOutCode(x0, y0, width, height);
            var out := if c0 != 0 then c0 else ComputeOutCode(x1, y1, width, height);
            && (HandledSide(out) == TOP ==> p.1 == (height - 1) as real)
            && (HandledSide(out) == BOTTOM ==> p.1 == 0.0)
            && (HandledSide(out) == RIGHT ==> p.0 == (width - 1) as real)
            && (HandledSide(out) == LEFT ==> p.0 == 0.0)
            // ... which clears that side's bit in its outcode
            && ComputeOutCode(p.0, p.1, width, height) & HandledSide(out) == 0
    // it stays within the bounding box of the two endpoints when the rectangle is not empty
    ensures width >= 1 && height >= 1 ==>
              Min(x0, x1) <= p.0 <= Max(x0, x1) && Min(y0, y1) <= p.1 <= Max(y0, y1)
    // and the clipping loop makes progress
    ensures var c0 := ComputeOutCode(x0, y0, width, height);
            var c1 := ComputeOutCode(x1, y1, width, height);
            var c := ComputeOutCode(p.0, p.1, width, height);
            if c0 != 0 then ClipRank(c, c1) < ClipRank(c0, c1) else ClipRank(c0, c) < ClipRank(c0, c1)
  {
    var c0 := ComputeOutCode(x0, y0, width, height);
    var c1 := ComputeOutCode(x1, y1, width, height);
    var out := if c0 != 0 then c0 else c1;
    var p :=
      if out & TOP != 0 then
        (x0 + (x1 - x0) * ((height - 1) as real - y0) / (y1 - y0), (height - 1) as real)
      else if out & BOTTOM != 0 then
        (x0 + (x1 - x0) * (0.0 - y0) / (y1 - y0), 0.0)
      else if out & RIGHT != 0 then
        ((width - 1) as real, y0 + (y1 - y0) * ((width - 1) as real - x0) / (x1 - x0))
      else
        (0.0, y0 + (y1 - y0) * (0.0 - x0) / (x1 - x0));
    ClipPointProgress(x0, y0, x1, y1, width, height, p);
    p
  }

  /** The proof obligations of ClipPoint, for the point it computes. */
  lemma ClipPointProgress(x0: real, y0: real, x1: real, y1: real, width: int, height: int, p: (real, real))
    requires ComputeOutCode(x0, y0, width, height) | ComputeOutCode(x1, y1, width, height) != 0
    requires ComputeOutCode(x0, y0, width, height) & ComputeOutCode(x1, y1, width, height) == 0
    requires var c0 := ComputeOutCode(x0, y0, width, height);
             var out := if c0 != 0 then c0 else ComputeOutCode(x1, y1, width, height);
             if out & TOP != 0 then
               y1 != y0 && p == (x0 + (x1 - x0) * ((height - 1) as real - y0) / (y1 - y0), (height - 1) as real)
             else if out & BOTTOM != 0 then
               y1 != y0 && p == (x0 + (x1 - x0) * (0.0 - y0) / (y1 - y0), 0.0)
             else if out & RIGHT != 0 then
               x1 != x0 && p == ((width - 1) as real, y0 + (y1 - y0) * ((width - 1) as real - x0) / (x1 - x0))
             else
               x1 != x0 && p == (0.0, y0 + (y1 - y0) * (0.0 - x0) / (x1 - x0))
    ensures var c0 := ComputeOutCode(x0, y0, width, height);
            var out := if c0 != 0 then c0 else ComputeOutCode(x1, y1, width, height);
            && (HandledSide(out) == TOP ==> p.1 == (height - 1) as real)
            && (HandledSide(out) == BOTTOM ==> p.1 == 0.0)
            && (HandledSide(out) == RIGHT ==> p.0 == (width - 1) as real)
            && (HandledSide(out) == LEFT ==> p.0 == 0.0)
            && ComputeOutCode(p.0, p.1, width, height) & HandledSide(out) == 0
    ensures width >= 1 && height >= 1 ==>
              Min(x0, x1) <= p.0 <= Max(x0, x1) && Min(y0, y1) <= p.1 <= Max(y0, y1)
    ensures var c0 := ComputeOutCode(x0, y0, width, height);
            var c1 := ComputeOutCode(x1, y1, width, height);
            var c := ComputeOutCode(p.0, p.1, width, height);
            if c0 != 0 then ClipRank(c, c1) < ClipRank(c0, c1) else ClipRank(c0, c) < ClipRank(c0, c1)
  {
    var c0 := ComputeOutCode(x0, y0, width, height);
    var c1 := ComputeOutCode(x1, y1, width, height);
    var out := if c0 != 0 then c0 else c1;
    var other := if c0 != 0 then c1 else c0;
    var c := ComputeOutCode(p.0, p.1, width, height);
    assert out & other == 0 && out != 0 && out & 0xF0 == 0;
    var firstOut := c0 != 0;
    var side := HandledSide(out);
    var h1 := (height - 1) as real;
    var w1 := (width - 1) as real;
    if side == TOP {
      if height >= 1 { VerticalPass(x0, y0, x1, y1, height, true, p.0); }
      VerticalBits(x0, y0, x1, y1, width, height, firstOut, true, p.0, p.1);
    } else if side == BOTTOM {
      VerticalPass(x0, y0, x1, y1, height, false, p.0);
      VerticalBits(x0, y0, x1, y1, width, height, firstOut, false, p.0, p.1);
    } else if side == RIGHT {
      if width >= 1 { HorizontalPass(x0, y0, x1, y1, width, true, p.1); }
      HorizontalBits(x0, y0, x1, y1, width, height, firstOut, true, p.0, p.1);
    } else {
      HorizontalPass(x0, y0, x1, y1, width, false, p.1);
      HorizontalBits(x0, y0, x1, y1, width, height, firstOut, false, p.0, p.1);
    }
    ProgressFromPass(c0, c1, c, out, other, side);
  }

  /** The counting step: the new outcode has no bit outside the old pair's union and not
      the handled one, or it shares a bit with the endpoint that stayed. */
  lemma ProgressFromPass(c0: OutCode, c1: OutCode, c: OutCode, out: OutCode, other: OutCode, side: OutCode)
    requires c0 & 0xF0 == 0 && c1 & 0xF0 == 0 && c & 0xF0 == 0
    requires c0 & c1 == 0 && c0 | c1 != 0
    requires out == (if c0 != 0 then c0 else c1) && other == (if c0 != 0 then c1 else c0)
    requires side == HandledSide(out)
    requires c & other != 0 || (c & !(c0 | c1) == 0 && c & side == 0)
    ensures if c0 != 0 then ClipRank(c, c1) < ClipRank(c0, c1) else ClipRank(c0, c) < ClipRank(c0, c1)
  {
    if c & other == 0 {
      BitCountShrinks(c | other, c0 | c1, side);
    }
  }

  /** A pass against the top (`top`) or bottom side keeps x between the endpoints'. */
  lemma VerticalPass(x0: real, y0: real, x1: real, y1: real, height: int, top: bool, px: real)
    requires var h1 := (height - 1) as real;
             if top then (y0 <= h1 <= y1 || y1 <= h1 <= y0) else (y0 <= 0.0 <= y1 || y1 <= 0.0 <= y0)
    requires y1 != y0
    requires px == if top then x0 + (x1 - x0) * ((height - 1) as real - y0) / (y1 - y0)
                   else x0 + (x1 - x0) * (0.0 - y0) / (y1 - y0)
    ensures Min(x0, x1) <= px <= Max(x0, x1)
  {
    if top {
      Between(x0, x1, y0, y1, (height - 1) as real, px);
    } else {
      Between(x0, x1, y0, y1, 0.0, px);
    }
  }

  /** A pass against the right (`right`) or left side keeps y between the endpoints'. */
  lemma HorizontalPass(x0: real, y0: real, x1: real, y1: real, width: int, right: bool, py: real)
    requires var w1 := (width - 1) as real;
             if right then (x0 <= w1 <= x1 || x1 <= w1 <= x0) else (x0 <= 0.0 <= x1 || x1 <= 0.0 <= x0)
    requires x1 != x0
    requires py == if right then y0 + (y1 - y0) * ((width - 1) as real - x0) / (x1 - x0)
                   else y0 + (y1 - y0) * (0.0 - x0) / (x1 - x0)
    ensures Min(y0, y1) <= py <= Max(y0, y1)
  {
    if right {
      Between(y0, y1, x0, x1, (width - 1) as real, py);
    } else {
      Between(y0, y1, x0, x1, 0.0, py);
    }
  }

  /** Linear interpolation of a..b at a parameter t between v0 and v1. */
  lemma Between(a: real, b: real, v0: real, v1: real, t: real, r: real)
    requires v0 != v1
    requires v0 <= t <= v1 || v1 <= t <= v0
    requires r == a + (b - a) * (t - v0) / (v1 - v0)
    ensures Min(a, b) <= r <= Max(a, b)
  {
    var num, den := t - v0, v1 - v0;
    Interpolated(a, b, num, den);
    assert r == a + (b - a) * num / den;
  }

  /** The outcode side of a vertical pass, for a point (px, py) on the boundary row whose
      x lies between the endpoints' when the row is inside the rectangle. */
  lemma VerticalBits(x0: real, y0: real, x1: real, y1: real, width: int, height: int,
                     firstOut: bool, top: bool, px: real, py: real)
    requires var out := if firstOut then (x0, y0) else (x1, y1);
             var other := if firstOut then (x1, y1) else (x0, y0);
             && (top ==> !(out.1 < 0.0) && out.1 > (height - 1) as real
                         && !(!(other.1 < 0.0) && other.1 > (height - 1) as real))
             && (!top ==> out.1 < 0.0 && !(other.1 < 0.0))
    requires py == if top then (height - 1) as real else 0.0
    requires height >= 1 ==> Min(x0, x1) <= px <= Max(x0, x1)
    ensures var other := if firstOut then (x1, y1) else (x0, y0);
            var c := ComputeOutCode(px, py, width, height);
            var oc := ComputeOutCode(other.0, other.1, width, height);
            var c0 := ComputeOutCode(x0, y0, width, height);
            var c1 := ComputeOutCode(x1, y1, width, height);
            && c & (if top then TOP else BOTTOM) == 0
            && (c & oc != 0 || (c & !(c0 | c1) == 0))
  {
    var other := if firstOut then (x1, y1) else (x0, y0);
    var c := ComputeOutCode(px, py, width, height);
    var oc := ComputeOutCode(other.0, other.1, width, height);
    if height < 1 {
      // the boundary row itself lies outside, on the same side as the other endpoint
      if top {
        assert c & BOTTOM != 0 && oc & BOTTOM != 0;
      } else {
        assert c & TOP != 0 && oc & TOP != 0;
      }
    } else {
      OtherAxisBits(px, x0, x1, width);
      assert c & (BOTTOM | TOP) == 0;
    }
  }

  /** The outcode side of a horizontal pass, for a point (px, py) on the boundary column
      whose y lies between the endpoints' when the column is inside the rectangle. */
  lemma HorizontalBits(x0: real, y0: real, x1: real, y1: real, width: int, height: int,
                       firstOut: bool, right: bool, px: real, py: real)
    requires var out := if firstOut then (x0, y0) else (x1, y1);
             var other := if firstOut then (x1, y1) else (x0, y0);
             && (right ==> !(out.0 < 0.0) && out.0 > (width - 1) as real
                           && !(!(other.0 < 0.0) && other.0 > (width - 1) as real))
             && (!right ==> out.0 < 0.0 && !(other.0 < 0.0))
    requires px == if right then (width - 1) as real else 0.0
    requires width >= 1 ==> Min(y0, y1) <= py <= Max(y0, y1)
    ensures var other := if firstOut then (x1, y1) else (x0, y0);
            var c := ComputeOutCode(px, py, width, height);
            var oc := ComputeOutCode(other.0, other.1, width, height);
            var c0 := ComputeOutCode(x0, y0, width, height);
            var c1 := ComputeOutCode(x1, y1, width, height);
            && c & (if right then RIGHT else LEFT) == 0
            && (c & oc != 0 || (c & !(c0 | c1) == 0))
  {
    var other := if firstOut then (x1, y1) else (x0, y0);
    var c := ComputeOutCode(px, py, width, height);
    var oc := ComputeOutCode(other.0, other.1, width, height);
    if width < 1 {
      if right {
        assert c & LEFT != 0 && oc & LEFT != 0;
      } else {
        assert c & RIGHT != 0 && oc & RIGHT != 0;
      }
    } else {
      OtherAxisBits(py, y0, y1, height);
      assert c & (LEFT | RIGHT) == 0;
    }
  }

  /** A value between two others lies beyond a side of the rectangle only if one of them does. */
  lemma OtherAxisBits(v: real, a: real, b: real, size: int)
    requires Min(a, b) <= v <= Max(a, b)
    ensures v < 0.0 ==> a < 0.0 || b < 0.0
    ensures !(v < 0.0) && v > (size - 1) as real ==>
              (!(a < 0.0) && a > (size - 1) as real) || (!(b < 0.0) && b > (size - 1) as real)
  {
  }

  /** (x, y) lies in the axis-aligned box spanned by a and b. */
  predicate InBox(x: real, y: real, a: Vec3, b: Vec3)
  {
    Min(a.x, b.x) <= x <= Max(a.x, b.x) && Min(a.y, b.y) <= y <= Max(a.y, b.y)
  }

  /** The clipping loop on values: while the outcodes neither both vanish nor share a side,
      one more pass is made. The result is whether the loop accepted the segment, and where
      its endpoints ended. */
  function ClipLoop(x0: real, y0: real, x1: real, y1: real, width: int, height: int)
    : (r: (ClipResult, real, real, real, real))
    ensures r.0 == Accepted ==> Inside(r.1, r.2, width, height) && Inside(r.3, r.4, width, height)
    ensures Inside(x0, y0, width, height) && Inside(x1, y1, width, height) ==>
              r == (Accepted, x0, y0, x1, y1)
    decreases ClipRank(ComputeOutCode(x0, y0, width, height), ComputeOutCode(x1, y1, width, height)), 1
  {
    var c0 := ComputeOutCode(x0, y0, width, height);
    var c1 := ComputeOutCode(x1, y1, width, height);
    if c0 | c1 == 0 then (Accepted, x0, y0, x1, y1)
    else if c0 & c1 != 0 then (Rejected, x0, y0, x1, y1)
    else ClipPass(x0, y0, x1, y1, width, height)
  }

  /** One pass of the clipping loop, then the rest of it: the outside endpoint (the first one
      when its outcode is non-zero) moves to ClipPoint. */
  function ClipPass(x0: real, y0: real, x1: real, y1: real, width: int, height: int)
    : (r: (ClipResult, real, real, real, real))
    requires ComputeOutCode(x0, y0, width, height) | ComputeOutCode(x1, y1, width, height) != 0
    requires ComputeOutCode(x0, y0, width, height) & ComputeOutCode(x1, y1, width, height) == 0
    ensures r.0 == Accepted ==> Inside(r.1, r.2, width, height) && Inside(r.3, r.4, width, height)
    decreases ClipRank(ComputeOutCode(x0, y0, width, height), ComputeOutCode(x1, y1, width, height)), 0
  {
    var c0 := ComputeOutCode(x0, y0, width, height);
    var c1 := ComputeOutCode(x1, y1, width, height);
    var out := if c0 != 0 then c0 else c1;
    var p := ClipPoint(x0, y0, x1, y1, width, height);
    if out == c0 then ClipLoop(p.0, p.1, x1, y1, width, height)
    else ClipLoop(x0, y0, p.0, p.1, width, height)
  }

  /** The clipping loop started from (x0, y0)-(x1, y1) ends with r. */
  predicate ClipsTo(x0: real, y0: real, x1: real, y1: real, width: int, height: int,
                    r: (ClipResult, real, real, real, real))
  {
    ClipLoop(x0, y0, x1, y1, width, height) == r
  }

  /** One pass of the clipping loop keeps where the loop ends. */
  lemma ClipPassKeeps(x0: real, y0: real, x1: real, y1: real, width: int, height: int,
                      r: (ClipResult, real, real, real, real))
    requires ComputeOutCode(x0, y0, width, height) | ComputeOutCode(x1, y1, width, height) != 0
    requires ComputeOutCode(x0, y0, width, height) & ComputeOutCode(x1, y1, width, height) == 0
    requires ClipsTo(x0, y0, x1, y1, width, height, r)
    ensures var p := ClipPoint(x0, y0, x1, y1, width, height);
            if ComputeOutCode(x0, y0, width, height) != 0 then ClipsTo(p.0, p.1, x1, y1, width, height, r)
            else ClipsTo(x0, y0, p.0, p.1, width, height, r)
  {
    assert ClipLoop(x0, y0, x1, y1, width, height) == ClipPass(x0, y0, x1, y1, width, height);
  }

  /** CohenSutherlandLineClip on values: on acceptance the endpoints where the loop left them,
      with their depths kept; on rejection the points unchanged. */
  function LineClip(p1: Vec3, p2: Vec3, width: int, height: int): (r: (ClipResult, Vec3, Vec3))
    ensures r.0 == Rejected ==> r.1 == p1 && r.2 == p2
    ensures r.1.z == p1.z && r.2.z == p2.z
    ensures r.0 == Accepted ==>
              Inside(r.1.x, r.1.y, width, height) && Inside(r.2.x, r.2.y, width, height)
    ensures Inside(p1.x, p1.y, width, height) && Inside(p2.x, p2.y, width, height) ==>
              r == (Accepted, p1, p2)
  {
    var l := ClipLoop(p1.x, p1.y, p2.x, p2.y, width, height);
    if l.0 == Accepted then (Accepted, Vec3(l.1, l.2, p1.z), Vec3(l.3, l.4, p2.z))
    else (Rejected, p1, p2)
  }

  /** A point between two points of a box lies in the box. */
  lemma InBoxBetween(px: real, py: real, x0: real, y0: real, x1: real, y1: real, a: Vec3, b: Vec3)
    requires InBox(x0, y0, a, b) && InBox(x1, y1, a, b)
    requires Min(x0, x1) <= px <= Max(x0, x1) && Min(y0, y1) <= py <= Max(y0, y1)
    ensures InBox(px, py, a, b)
  {
  }

  /** The point one pass of the clipping loop moves an endpoint to: ClipPoint, together with
      what the loop needs of it. The loop makes progress, still ends where it would have ended,
      and stays in the box of the original points a and b. */
  method PassPoint(x0: real, y0: real, x1: real, y1: real, width: int, height: int,
                   ghost a: Vec3, ghost b: Vec3, ghost target: (ClipResult, real, real, real, real))
    returns (p: (real, real))
    requires ComputeOutCode(x0, y0, width, height) | ComputeOutCode(x1, y1, width, height) != 0
    requires ComputeOutCode(x0, y0, width, height) & ComputeOutCode(x1, y1, width, height) == 0
    requires ClipsTo(x0, y0, x1, y1, width, height, target)
    requires width >= 1 && height >= 1 ==> InBox(x0, y0, a, b) && InBox(x1, y1, a, b)
    ensures p == ClipPoint(x0, y0, x1, y1, width, height)
    ensures var c0 := ComputeOutCode(x0, y0, width, height);
            var c1 := ComputeOutCode(x1, y1, width, height);
            var c := ComputeOutCode(p.0, p.1, width, height);
            if c0 != 0 then ClipRank(c, c1) < ClipRank(c0, c1) && ClipsTo(p.0, p.1, x1, y1, width, height, target)
            else ClipRank(c0, c) < ClipRank(c0, c1) && ClipsTo(x0, y0, p.0, p.1, width, height, target)
    ensures width >= 1 && height >= 1 ==> InBox(p.0, p.1, a, b)
  {
    p := ClipPoint(x0, y0, x1, y1, width, height);
    ClipPassKeeps(x0, y0, x1, y1, width, height, target);
    if width >= 1 && height >= 1 {
      InBoxBetween(p.0, p.1, x0, y0, x1, y1, a, b);
    }
  }

  /** Cohen-Sutherland clipping of the segment p1-p2 against [0, width-1] x [0, height-1].
      The two points are passed by pointer in the source and written back only on
      acceptance; here they come back as q1 and q2. */
  method CohenSutherlandLineClip(p1: Vec3, p2: Vec3, width: int, height: int)
    returns (result: ClipResult, q1: Vec3, q2: Vec3)
    ensures result == Rejected ==> q1 == p1 && q2 == p2
    ensures q1.z == p1.z && q2.z == p2.z
    ensures result == Accepted ==>
              Inside(q1.x, q1.y, width, height) && Inside(q2.x, q2.y, width, height)
    ensures Inside(p1.x, p1.y, width, height) && Inside(p2.x, p2.y, width, height) ==>
              result == Accepted && q1 == p1 && q2 == p2
    ensures result == Accepted && width >= 1 && height >= 1 ==>
              InBox(q1.x, q1.y, p1, p2) && InBox(q2.x, q2.y, p1, p2)
    ensures (result, q1, q2) == LineClip(p1, p2, width, height)
  {
    var x0, x1, y0, y1 := p1.x, p2.x, p1.y, p2.y;
    var outcode0 := ComputeOutCode(x0, y0, width, height);
    var outcode1 := ComputeOutCode(x1, y1, width, height);
    ghost var target := ClipLoop(x0, y0, x1, y1, width, height);
    while outcode0 | outcode1 != 0 && outcode0 & outcode1 == 0
      invariant outcode0 == ComputeOutCode(x0, y0, width, height)
      invariant outcode1 == ComputeOutCode(x1, y1, width, height)
      invariant width >= 1 && height >= 1 ==> InBox(x0, y0, p1, p2) && InBox(x1, y1, p1, p2)
      invariant ClipsTo(x0, y0, x1, y1, width, height, target)
      decreases ClipRank(outcode0, outcode1)
    {
      var outcodeOut := if outcode0 != 0 then outcode0 else outcode1;
      var p := PassPoint(x0, y0, x1, y1, width, height, p1, p2, target);
      if outcodeOut == outcode0 {
        x0, y0 := p.0, p.1;
        outcode0 := ComputeOutCode(x0, y0, width, height);
      } else {
        x1, y1 := p.0, p.1;
        outcode1 := ComputeOutCode(x1, y1, width, height);
      }
    }
    if outcode0 | outcode1 == 0 {
      result := Accepted;
      q1 := Vec3(x0, y0, p1.z);
      q2 := Vec3(x1, y1, p2.z);
    } else {
      result := Rejected;
      q1, q2 := p1, p2;
    }
  }

  // ---------------------------------------------------------------------------
  // Texture-coordinate wrap-around
  // ---------------------------------------------------------------------------

  function Ceil(s: real): int { -((-s).Floor) }

  /** What clipUV(float) returns: a negative s raised by whole units into [0, 1), an s above
      1 lowered by whole units into (0, 1], anything else unchanged. */
  function WrappedUnit(s: real): real
  {
    if s < 0.0 then s - s.Floor as real
    else if s > 1.0 then s - (Ceil(s) - 1) as real
    else s
  }

  /** The wrapped coordinate is in [0, 1] and is s itself exactly when s is already there. */
  lemma WrappedUnitRange(s: real)
    ensures 0.0 <= WrappedUnit(s) <= 1.0
    ensures (0.0 <= s <= 1.0) <==> WrappedUnit(s) == s
    ensures s < 0.0 ==> WrappedUnit(s) < 1.0
    ensures s > 1.0 ==> WrappedUnit(s) > 0.0
  {
    if s < 0.0 {
      var f := s.Floor;
      assert f as real <= s < f as real + 1.0;
    } else if s > 1.0 {
      var g := (-s).Floor;
      assert g as real <= -s < g as real + 1.0;
    }
  }

  /** The wrapped coordinate differs from s by a whole number. */
  lemma WrappedUnitShift(s: real)
    ensures (WrappedUnit(s) - s).Floor as real == WrappedUnit(s) - s
  {
    var n := if s < 0.0 then -s.Floor else if s > 1.0 then -(Ceil(s) - 1) else 0;
    assert WrappedUnit(s) - s == n as real;
    IntegerFloor(n);
  }

  lemma IntegerFloor(n: int)
    ensures (n as real).Floor == n
  {
  }

  /** Wrapping twice is wrapping once. */
  lemma WrappedUnitIdempotent(s: real)
    ensures WrappedUnit(WrappedUnit(s)) == WrappedUnit(s)
  {
    WrappedUnitRange(s);
    WrappedUnitRange(WrappedUnit(s));
  }

  /** clipUV(float): add 1 while negative, then subtract 1 while above 1. */
  method ClipUV(s0: real) returns (s: real)
    ensures s == WrappedUnit(s0)
  {
    s := s0;
    ghost var k: int := 0;
    while s < 0.0
      invariant s == s0 + k as real
      invariant 0 <= k <= (if s0 < 0.0 then -s0.Floor else 0)
      decreases (if s0 < 0.0 then -s0.Floor else 0) - k
    {
      s := s + 1.0;
      k := k + 1;
    }
    ghost var s1 := s;
    assert s0 < 0.0 ==> s1 == s0 - s0.Floor as real && s1 < 1.0;
    ghost var j: int := 0;
    while s > 1.0
      invariant s == s1 - j as real
      invariant 0 <= j <= (if s1 > 1.0 then Ceil(s1) - 1 else 0)
      decreases (if s1 > 1.0 then Ceil(s1) - 1 else 0) - j
    {
      s := s - 1.0;
      j := j + 1;
    }
  }

  /** One coordinate of clipUV(int&, int&, width, height): wrap a negative c by size - 1,
      then subtract size when the result exceeds `bound`. */
  function WrappedIndex(c: int, bound: int, size: int): int
  {
    var c1 := if c < 0 then size - 1 + c else c;
    if c1 > bound then c1 - size else c1
  }

  /** With the bound belonging to the size, an index within one period of the range comes
      back in range, and an index already in range is unchanged. */
  lemma WrappedIndexInRange(c: int, size: int)
    requires size >= 1
    requires -(size - 1) <= c <= 2 * size - 1
    ensures 0 <= WrappedIndex(c, size - 1, size) <= size - 1
    ensures 0 <= c <= size - 1 ==> WrappedIndex(c, size - 1, size) == c
    ensures c < 0 ==> WrappedIndex(c, size - 1, size) == size - 1 + c
    ensures c > size - 1 ==> WrappedIndex(c, size - 1, size) == c - size
  {
  }

  /** clipUV(int&, int&, width, height) as written: v is compared with width - 1. */
  method ClipUVIntAsWritten(u: int, v: int, width: int, height: int) returns (u': int, v': int)
    ensures u' == WrappedIndex(u, width - 1, width)
    ensures v' == WrappedIndex(v, width - 1, height)
  {
    u', v' := u, v;
    if u' < 0 {
      u' := width - 1 + u';
    }
    if u' > width - 1 {
      u' := u' - width;
    }
    if v' < 0 {
      v' := height - 1 + v';
    }
    if v' > width - 1 {
      v' := v' - height;
    }
  }

  /** As written, an in-range v on a texture taller than it is wide is moved out of range:
      on a 2 x 4 texture, v = 2 becomes -2. */
  lemma ClipUVIntAsWrittenBreaksRange()
    ensures var (width, height, v) := (2, 4, 2);
            0 <= v <= height - 1 && WrappedIndex(v, width - 1, height) == -2
  {
  }

  /** clipUV(int&, int&, width, height) with v compared with height - 1. */
  method ClipUVInt(u: int, v: int, width: int, height: int) returns (u': int, v': int)
    ensures u' == WrappedIndex(u, width - 1, width)
    ensures v' == WrappedIndex(v, height - 1, height)
    ensures width >= 1 && -(width - 1) <= u <= 2 * width - 1 ==> 0 <= u' <= width - 1
    ensures height >= 1 && -(height - 1) <= v <= 2 * height - 1 ==> 0 <= v' <= height - 1
    ensures 0 <= u <= width - 1 ==> u' == u
    ensures 0 <= v <= height - 1 ==> v' == v
  {
    u', v' := u, v;
    if u' < 0 {
      u' := width - 1 + u';
    }
    if u' > width - 1 {
      u' := u' - width;
    }
    if v' < 0 {
      v' := height - 1 + v';
    }
    if v' > height - 1 {
      v' := v' - height;
    }
    if width >= 1 && -(width - 1) <= u <= 2 * width - 1 {
      WrappedIndexInRange(u, width);
    }
    if height >= 1 && -(height - 1) <= v <= 2 * height - 1 {
      WrappedIndexInRange(v, height);
    }
  }

  // ---------------------------------------------------------------------------
  // SWAP
  // ---------------------------------------------------------------------------

  /** The SWAP macro on a pair of variables. */
  function Swap<T>(p: (T, T)): (r: (T, T))
    ensures r.0 == p.1 && r.1 == p.0
  {
    (p.1, p.0)
  }

  /** Swapping twice restores both variables. */
  lemma SwapTwice<T>(p: (T, T))
    ensures Swap(Swap(p)) == p
  {
  }
}

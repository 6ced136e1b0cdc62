/** Lines and the integer line rasterisers of lib/line.c.

    All three rasterisers truncate the endpoints to int, start from the
    endpoint with the smaller y, classify the direction into one of four
    octants or a horizontal or vertical run, and walk the octants with the
    same midpoint error term.  The walk is modelled once: `Walk` is the
    C loop, `MinorOffset` its closed form, and `Path` the cells visited. */
module Lines {
  import opened CNum
  import opened Colors
  import opened Geometry
  import opened Images
  import opened Raster

  datatype Line = Line(zBuffer: int, a: Point, b: Point)

  /** Line_set2D: endpoints (x0, y0, 0, 1) and (x1, y1, 0, 1), z-buffer on. */
  function LineSet2D(x0: real, y0: real, x1: real, y1: real): (l: Line)
    ensures l.a == Vec4(x0, y0, 0.0, 1.0) && l.b == Vec4(x1, y1, 0.0, 1.0)
    ensures l.zBuffer == 1
  {
    Line(1, PointSet2D(x0, y0), PointSet2D(x1, y1))
  }

  /** Line_set: the endpoints verbatim, z-buffer on. */
  function LineSet(ta: Point, tb: Point): (l: Line)
    ensures l.a == ta && l.b == tb && l.zBuffer == 1
  {
    Line(1, ta, tb)
  }

  /** Line_normalize: x and y of both endpoints divided by w, w set to 1,
      z untouched. */
  function LineNormalize(l: Line): (r: Line)
    ensures r.zBuffer == l.zBuffer
    ensures r.a.w == 1.0 && r.b.w == 1.0 && r.a.z == l.a.z && r.b.z == l.b.z
    ensures l.a.w != 0.0 ==> r.a.x * l.a.w == l.a.x && r.a.y * l.a.w == l.a.y
    ensures l.b.w != 0.0 ==> r.b.x * l.b.w == l.b.x && r.b.y * l.b.w == l.b.y
  {
    Line(l.zBuffer, PointNormalize(l.a), PointNormalize(l.b))
  }

  /** Normalising a second time changes nothing. */
  lemma LineNormalizeIdempotent(l: Line)
    ensures LineNormalize(LineNormalize(l)) == LineNormalize(l)
  {
    PointNormalizeIdempotent(l.a);
    PointNormalizeIdempotent(l.b);
  }

  /** Line_zBuffer. */
  function SetZBuffer(l: Line, flag: int): (r: Line)
    ensures r.zBuffer == flag && r.a == l.a && r.b == l.b
  {
    l.(zBuffer := flag)
  }

  // ------------------------------------------------------- the midpoint walk

  /** ⌈x / b⌉ for positive b. */
  function CeilDiv(x: int, b: int): int
    requires b > 0
  {
    (x + b - 1) / b
  }

  /** The multiple of b in the half-open window [x, x + b) is b·⌈x / b⌉. */
  lemma CeilDivUnique(x: int, b: int, k: int)
    requires b > 0 && x <= k * b < x + b
    ensures k == CeilDiv(x, b)
  {
    var q := CeilDiv(x, b);
    assert q * b <= x + b - 1 < q * b + b;
    if k > q {
      MulMonotone(q + 1, k, b);
    } else if k < q {
      MulMonotone(k + 1, q, b);
    }
  }

  /** b·⌈x / b⌉ does lie in [x, x + b). */
  lemma CeilDivWindow(x: int, b: int)
    requires b > 0
    ensures x <= CeilDiv(x, b) * b < x + b
  {
  }

  /** The parameters the four octant branches pass to the walk: a step of
      the major coordinate adds `a` to the error, a step of the minor one
      subtracts `b`, and the error starts at `e0`. */
  predicate WalkParams(e0: int, a: int, b: int)
  {
    0 <= a <= b && a - b < e0 <= a
  }

  /** The minor-coordinate offset at step i of the walk: the unique k with
      e0 + (i-1)·a <= k·b < e0 + (i-1)·a + b. */
  function MinorOffset(i: int, e0: int, a: int, b: int): int
    requires b > 0
  {
    CeilDiv(e0 + (i - 1) * a, b)
  }

  /** The octant loop of lines 79-99 (and its three mirror images):
      record the minor offset, step the minor coordinate while the error
      is positive, then step the major one.  The offsets it produces are
      the closed form, and they never fall back and never skip. */
  method Walk(n: int, e0: int, a: int, b: int) returns (ks: seq<int>)
    requires WalkParams(e0, a, b)
    ensures |ks| == if n > 0 then n else 0
    ensures forall i :: 0 <= i < |ks| ==> ks[i] == MinorOffset(i, e0, a, b)
    ensures forall i :: 0 < i < |ks| ==> ks[i - 1] <= ks[i] <= ks[i - 1] + 1
  {
    ks := [];
    var k, e, i := 0, e0, 0;
    while i < n
      invariant 0 <= i <= (if n > 0 then n else 0) && |ks| == i
      invariant e == e0 + i * a - k * b
      invariant a - b < e <= a
      invariant forall j :: 0 <= j < i ==> ks[j] == MinorOffset(j, e0, a, b)
      invariant forall j :: 0 < j < i ==> ks[j - 1] <= ks[j] <= ks[j - 1] + 1
      invariant i > 0 ==> ks[i - 1] <= k <= ks[i - 1] + 1
    {
      assert e0 + (i - 1) * a == e0 + i * a - a;
      CeilDivUnique(e0 + (i - 1) * a, b, k);
      ks := ks + [k];
      while e > 0
        invariant e == e0 + i * a - k * b
        invariant -b < e <= a
        invariant k == ks[i] || (k == ks[i] + 1 && e <= 0)
        decreases e
      {
        assert (k + 1) * b == k * b + b;
        k := k + 1;
        e := e - b;
      }
      assert (i + 1) * a == i * a + a;
      e := e + a;
      i := i + 1;
    }
  }

  /** Successive offsets of the closed form differ by 0 or 1. */
  lemma MinorStep(i: int, e0: int, a: int, b: int)
    requires WalkParams(e0, a, b)
    ensures MinorOffset(i, e0, a, b) - 1 <= MinorOffset(i - 1, e0, a, b) <= MinorOffset(i, e0, a, b)
  {
    var x := e0 + (i - 1) * a;
    var q' := MinorOffset(i - 1, e0, a, b);
    assert e0 + (i - 2) * a == x - a;
    CeilDivWindow(x - a, b);
    if q' * b >= x {
      CeilDivUnique(x, b, q');
    } else {
      assert (q' + 1) * b == q' * b + b;
      CeilDivUnique(x, b, q' + 1);
    }
  }

  // -------------------------------------------------- direction and path

  /** A pixel position: column x, row y. */
  datatype Cell = Cell(x: int, y: int)

  /** The start and the direction after lines 57-75: the endpoint with the
      smaller y (the first one on a tie) and the vector to the other. */
  datatype Setup = Setup(x: int, y: int, dx: int, dy: int)

  function Orient(x0: int, y0: int, x1: int, y1: int): (s: Setup)
    ensures s.dy >= 0 && s.y == if y0 <= y1 then y0 else y1
    ensures (s.x, s.y) == (x0, y0) || (s.x, s.y) == (x1, y1)
    ensures {(s.x, s.y), (s.x + s.dx, s.y + s.dy)} == {(x0, y0), (x1, y1)}
  {
    if y1 - y0 < 0 then Setup(x1, y1, -(x1 - x0), -(y1 - y0))
    else Setup(x0, y0, x1 - x0, y1 - y0)
  }

  /** The eight branches of the rasterisers. */
  datatype Shape = Octant1 | Octant2 | Octant3 | Octant4 | Rightward | Leftward | Downward | Upward

  /** The branch Line_drawNoZBuffer and Line_drawZBuffer take (lines
      78-208 and 280-443). */
  function ShapeOf(x0: int, y0: int, x1: int, y1: int): Shape
  {
    var s := Orient(x0, y0, x1, y1);
    if s.dx > 0 then
      if s.dx >= CAbs(s.dy) && s.dy != 0 then Octant1
      else if s.dx < s.dy && s.dy != 0 then Octant2
      else Rightward
    else if s.dx < 0 then
      if CAbs(s.dx) < CAbs(s.dy) && s.dy != 0 then Octant3
      else if CAbs(s.dx) >= CAbs(s.dy) && s.dy != 0 then Octant4
      else Leftward
    else if y0 > y1 then Downward
    else Upward
  }

  /** The branch Line_drawDashed takes (lines 533-641), whose tests are
      written in another order. */
  function DashedShapeOf(x0: int, y0: int, x1: int, y1: int): Shape
  {
    var s := Orient(x0, y0, x1, y1);
    if s.dx >= CAbs(s.dy) && s.dx > 0 && s.dy != 0 then Octant1
    else if s.dx < s.dy && s.dx > 0 && s.dy != 0 then Octant2
    else if CAbs(s.dx) < CAbs(s.dy) && s.dx < 0 && s.dy != 0 then Octant3
    else if CAbs(s.dx) >= CAbs(s.dy) && s.dx < 0 && s.dy != 0 then Octant4
    else if s.dx == 0 then (if y0 > y1 then Downward else Upward)
    else if x1 > x0 then Rightward
    else Leftward
  }

  /** Both orders of the tests pick the same branch, and each branch
      covers the directions its comments name. */
  lemma ShapesAgree(x0: int, y0: int, x1: int, y1: int)
    ensures DashedShapeOf(x0, y0, x1, y1) == ShapeOf(x0, y0, x1, y1)
    ensures var sh, dx, dy := ShapeOf(x0, y0, x1, y1), x1 - x0, y1 - y0;
            && (sh == Rightward <==> dy == 0 && dx > 0)
            && (sh == Leftward <==> dy == 0 && dx < 0)
            && (sh == Downward <==> dx == 0 && dy < 0)
            && (sh == Upward <==> dx == 0 && dy >= 0)
            && (sh == Octant1 ==> 0 < CAbs(dy) <= CAbs(dx) && dx * dy > 0)
            && (sh == Octant2 ==> 0 < CAbs(dx) < CAbs(dy) && dx * dy > 0)
            && (sh == Octant3 ==> 0 < CAbs(dx) < CAbs(dy) && dx * dy < 0)
            && (sh == Octant4 ==> 0 < CAbs(dy) <= CAbs(dx) && dx * dy < 0)
  {
    ProductSign(x1 - x0, y1 - y0);
  }

  /** The sign of a product from the signs of its factors. */
  lemma ProductSign(a: int, b: int)
    ensures (a > 0 && b > 0) || (a < 0 && b < 0) ==> a * b > 0
    ensures (a > 0 && b < 0) || (a < 0 && b > 0) ==> a * b < 0
  {
    if a < 0 && b < 0 {
      assert a * b == (-a) * (-b);
    } else if a > 0 && b < 0 {
      assert a * b == -(a * (-b));
    } else if a < 0 && b > 0 {
      assert a * b == -((-a) * b);
    }
  }

  /** The cells the loop of each branch visits, in order.  The third and
      fourth octants start one column left of the lower endpoint; the
      horizontal and vertical runs start at the first endpoint. */
  function Path(x0: int, y0: int, x1: int, y1: int): (p: seq<Cell>)
    ensures |p| == if CAbs(x1 - x0) >= CAbs(y1 - y0) then CAbs(x1 - x0) else CAbs(y1 - y0)
  {
    var s := Orient(x0, y0, x1, y1);
    match ShapeOf(x0, y0, x1, y1)
    case Octant1 =>
      seq(s.dx, i => Cell(s.x + i, s.y + MinorOffset(i, 3 * s.dy - 2 * s.dx, 2 * s.dy, 2 * s.dx)))
    case Octant2 =>
      seq(s.dy, i => Cell(s.x + MinorOffset(i, 3 * s.dx - 2 * s.dy, 2 * s.dx, 2 * s.dy), s.y + i))
    case Octant3 =>
      seq(s.dy, i => Cell(s.x - 1 - MinorOffset(i, -3 * s.dx - 2 * s.dy, -2 * s.dx, 2 * s.dy), s.y + i))
    case Octant4 =>
      seq(-s.dx, i => Cell(s.x - 1 - i, s.y + MinorOffset(i, 3 * s.dy + 2 * s.dx, 2 * s.dy, -2 * s.dx)))
    case Rightward => seq(s.dx, i => Cell(x0 + i, y0))
    case Leftward => seq(-s.dx, i => Cell(x0 - i, y0))
    case Downward => seq(s.dy, i => Cell(x0, y0 - i))
    case Upward => seq(s.dy, i => Cell(x0, y0 + i))
  }

  /** Each octant branch passes the walk parameters it needs. */
  lemma OctantParams(x0: int, y0: int, x1: int, y1: int)
    ensures var s, sh := Orient(x0, y0, x1, y1), ShapeOf(x0, y0, x1, y1);
            && (sh == Octant1 ==> WalkParams(3 * s.dy - 2 * s.dx, 2 * s.dy, 2 * s.dx))
            && (sh == Octant2 ==> WalkParams(3 * s.dx - 2 * s.dy, 2 * s.dx, 2 * s.dy))
            && (sh == Octant3 ==> WalkParams(-3 * s.dx - 2 * s.dy, -2 * s.dx, 2 * s.dy))
            && (sh == Octant4 ==> WalkParams(3 * s.dy + 2 * s.dx, 2 * s.dy, -2 * s.dx))
  {
  }

  /** The path is 8-connected: each step moves to a different cell at
      most one column and one row away. */
  lemma PathConnected(x0: int, y0: int, x1: int, y1: int, i: int)
    requires 0 < i < |Path(x0, y0, x1, y1)|
    ensures var p := Path(x0, y0, x1, y1);
            && p[i] != p[i - 1]
            && -1 <= p[i].x - p[i - 1].x <= 1
            && -1 <= p[i].y - p[i - 1].y <= 1
  {
    var s, p := Orient(x0, y0, x1, y1), Path(x0, y0, x1, y1);
    OctantParams(x0, y0, x1, y1);
    match ShapeOf(x0, y0, x1, y1)
    case Octant1 =>
      var e0, a, b := 3 * s.dy - 2 * s.dx, 2 * s.dy, 2 * s.dx;
      assert p[i].y - p[i - 1].y == MinorOffset(i, e0, a, b) - MinorOffset(i - 1, e0, a, b);
      MinorStep(i, e0, a, b);
    case Octant2 =>
      var e0, a, b := 3 * s.dx - 2 * s.dy, 2 * s.dx, 2 * s.dy;
      assert p[i].x - p[i - 1].x == MinorOffset(i, e0, a, b) - MinorOffset(i - 1, e0, a, b);
      MinorStep(i, e0, a, b);
    case Octant3 =>
      var e0, a, b := -3 * s.dx - 2 * s.dy, -2 * s.dx, 2 * s.dy;
      assert p[i - 1].x - p[i].x == MinorOffset(i, e0, a, b) - MinorOffset(i - 1, e0, a, b);
      MinorStep(i, e0, a, b);
    case Octant4 =>
      var e0, a, b := 3 * s.dy + 2 * s.dx, 2 * s.dy, -2 * s.dx;
      assert p[i].y - p[i - 1].y == MinorOffset(i, e0, a, b) - MinorOffset(i - 1, e0, a, b);
      MinorStep(i, e0, a, b);
    case _ =>
  }

  /** In the first octant, cell i lies in column x + i, and its row offset
      k is the one whose band (k, k+1] holds the height of the true line
      at the centre of that column: k < (i + 1/2)·dy/dx <= k + 1. */
  lemma FirstOctantTracksLine(x0: int, y0: int, x1: int, y1: int, i: int)
    requires ShapeOf(x0, y0, x1, y1) == Octant1
    requires 0 <= i < |Path(x0, y0, x1, y1)|
    ensures var s, c := Orient(x0, y0, x1, y1), Path(x0, y0, x1, y1)[i];
            var k := c.y - s.y;
            && c.x == s.x + i
            && 2 * s.dx * k < (2 * i + 1) * s.dy <= 2 * s.dx * (k + 1)
  {
    var s := Orient(x0, y0, x1, y1);
    var e0, a, b := 3 * s.dy - 2 * s.dx, 2 * s.dy, 2 * s.dx;
    var k := MinorOffset(i, e0, a, b);
    CeilDivWindow(e0 + (i - 1) * a, b);
    assert e0 + (i - 1) * a == (2 * i + 1) * s.dy - 2 * s.dx;
    assert 2 * s.dx * k == k * b;
    assert 2 * s.dx * (k + 1) == k * b + b;
  }

  /** The two endpoints may be given in either order: unless the line is
      horizontal or vertical, the same cells are visited. */
  lemma PathSymmetric(x0: int, y0: int, x1: int, y1: int)
    requires x0 != x1 && y0 != y1
    ensures Path(x0, y0, x1, y1) == Path(x1, y1, x0, y0)
  {
  }

  // ------------------------------------------------------------- drawing

  /** The endpoints truncated to int, as the (int) assignments at the top
      of each rasteriser do. */
  function Ends(l: Line): (e: (int, int, int, int))
    ensures e.0 == Trunc(l.a.x) && e.1 == Trunc(l.a.y) && e.2 == Trunc(l.b.x) && e.3 == Trunc(l.b.y)
  {
    (Trunc(l.a.x), Trunc(l.a.y), Trunc(l.b.x), Trunc(l.b.y))
  }

  function LinePath(l: Line): seq<Cell>
  {
    var (x0, y0, x1, y1) := Ends(l);
    Path(x0, y0, x1, y1)
  }

  /** The cells p[i] with keep[i], shifted by `off`, as writes of colour c. */
  function Select(p: seq<Cell>, keep: seq<bool>, off: Cell, c: Color): (fs: seq<Frag>)
    requires |keep| == |p|
    ensures forall j :: 0 <= j < |fs| ==> fs[j].color == c
    decreases |p|
  {
    if p == [] then []
    else
      (if keep[0] then [Frag(p[0].x + off.x, p[0].y + off.y, 0.0, c)] else [])
      + Select(p[1..], keep[1..], off, c)
  }

  /** Select writes exactly the kept cells, shifted. */
  lemma SelectHits(p: seq<Cell>, keep: seq<bool>, off: Cell, c: Color, r: int, col: int)
    requires |keep| == |p|
    ensures Hits(Select(p, keep, off, c), r, col)
            <==> exists i :: 0 <= i < |p| && keep[i] && p[i].x + off.x == col && p[i].y + off.y == r
  {
    if Hits(Select(p, keep, off, c), r, col) {
      SelectOnlyKept(p, keep, off, c, r, col);
    }
    if exists i :: 0 <= i < |p| && keep[i] && p[i].x + off.x == col && p[i].y + off.y == r {
      SelectAllKept(p, keep, off, c, r, col);
    }
  }

  /** Every pixel Select writes is a kept cell, shifted ... */
  lemma {:induction false} SelectOnlyKept(p: seq<Cell>, keep: seq<bool>, off: Cell, c: Color, r: int, col: int)
    requires |keep| == |p| && Hits(Select(p, keep, off, c), r, col)
    ensures exists i :: 0 <= i < |p| && keep[i] && p[i].x + off.x == col && p[i].y + off.y == r
    decreases |p|
  {
    var head := if keep[0] then [Frag(p[0].x + off.x, p[0].y + off.y, 0.0, c)] else [];
    var fs := Select(p, keep, off, c);
    var rest := Select(p[1..], keep[1..], off, c);
    assert fs == head + rest;
    var j :| 0 <= j < |fs| && fs[j].At(r, col);
    if j >= |head| {
      assert rest[j - |head|].At(r, col);
      SelectOnlyKept(p[1..], keep[1..], off, c, r, col);
      var i :| 0 <= i < |p| - 1 && keep[1..][i] && p[1..][i].x + off.x == col && p[1..][i].y + off.y == r;
      assert keep[i + 1] && p[i + 1] == p[1..][i];
    }
  }

  /** ... and every kept cell, shifted, is written. */
  lemma {:induction false} SelectAllKept(p: seq<Cell>, keep: seq<bool>, off: Cell, c: Color, r: int, col: int)
    requires |keep| == |p|
    requires exists i :: 0 <= i < |p| && keep[i] && p[i].x + off.x == col && p[i].y + off.y == r
    ensures Hits(Select(p, keep, off, c), r, col)
    decreases |p|
  {
    var head := if keep[0] then [Frag(p[0].x + off.x, p[0].y + off.y, 0.0, c)] else [];
    var fs := Select(p, keep, off, c);
    var rest := Select(p[1..], keep[1..], off, c);
    assert fs == head + rest;
    var i :| 0 <= i < |p| && keep[i] && p[i].x + off.x == col && p[i].y + off.y == r;
    if i == 0 {
      assert fs[0].At(r, col);
    } else {
      assert keep[1..][i - 1] && p[1..][i - 1] == p[i];
      SelectAllKept(p[1..], keep[1..], off, c, r, col);
      var j :| 0 <= j < |rest| && rest[j].At(r, col);
      assert fs[|head| + j] == rest[j];
    }
  }

  /** The pixel Line_drawNoZBuffer writes relative to the walked cell:
      the horizontal-left run writes (y-1, x-1), the downward run
      (y-1, x), the upward run (y, x-1) (lines 201, 219, 231). */
  function NoZOffset(sh: Shape): Cell
  {
    match sh
    case Leftward => Cell(-1, -1)
    case Downward => Cell(0, -1)
    case Upward => Cell(-1, 0)
    case _ => Cell(0, 0)
  }

  /** Line_drawNoZBuffer writes pixel (r, col): some walked cell inside
      the image, shifted by the branch's offset, is (col, r). */
  predicate NoZWrites(img: Image, l: Line, r: int, col: int)
  {
    var (x0, y0, x1, y1) := Ends(l);
    var p := Path(x0, y0, x1, y1);
    var off := NoZOffset(ShapeOf(x0, y0, x1, y1));
    exists i :: 0 <= i < |p| && img.InBounds(p[i].y, p[i].x)
                && p[i].x + off.x == col && p[i].y + off.y == r
  }

  /** The cells of a path that lie inside the image. */
  function InImage(img: Image, p: seq<Cell>): (keep: seq<bool>)
    ensures |keep| == |p| && forall i :: 0 <= i < |p| ==> keep[i] == img.InBounds(p[i].y, p[i].x)
  {
    seq(|p|, i requires 0 <= i < |p| => img.InBounds(p[i].y, p[i].x))
  }

  /** The pixels Line_drawNoZBuffer writes, all in colour c. */
  function NoZFrags(img: Image, l: Line, c: Color): (fs: seq<Frag>)
    ensures forall j :: 0 <= j < |fs| ==> fs[j].color == c
  {
    var (x0, y0, x1, y1) := Ends(l);
    var p := Path(x0, y0, x1, y1);
    Select(p, InImage(img, p), NoZOffset(ShapeOf(x0, y0, x1, y1)), c)
  }

  /** A pixel is written iff a walked cell inside the image, shifted by
      the branch's offset, lands on it. */
  lemma NoZFragsHit(img: Image, l: Line, c: Color, r: int, col: int)
    ensures Hits(NoZFrags(img, l, c), r, col) <==> NoZWrites(img, l, r, col)
  {
    var (x0, y0, x1, y1) := Ends(l);
    var p := Path(x0, y0, x1, y1);
    var off := NoZOffset(ShapeOf(x0, y0, x1, y1));
    var keep := InImage(img, p);
    SelectHits(p, keep, off, c, r, col);
  }

  /** Line_drawNoZBuffer: at each walked cell inside the image, the pixel
      at the cell (shifted for the straight runs) is coloured c.  Depths
      are neither read nor written. */
  function DrawNoZBuffer(img: Image, l: Line, c: Color): (img': Image)
    requires img.Valid()
    ensures img'.Valid() && img'.rows == img.rows && img'.cols == img.cols
    ensures forall r, col :: img.InBounds(r, col) ==>
              GetZ(img', r, col) == GetZ(img, r, col)
              && GetColor(img', r, col) == if NoZWrites(img, l, r, col) then c else GetColor(img, r, col)
  {
    var fs := NoZFrags(img, l, c);
    forall r, col | img.InBounds(r, col)
      ensures GetZ(Paint(img, fs), r, col) == GetZ(img, r, col)
      ensures GetColor(Paint(img, fs), r, col)
              == if NoZWrites(img, l, r, col) then c else GetColor(img, r, col)
    {
      PaintUniform(img, fs, c, r, col);
      NoZFragsHit(img, l, c, r, col);
    }
    Paint(img, fs)
  }

  /** The pixels Line_drawDashed writes, all in colour c. */
  function DashFrags(l: Line, c: Color, gap: int, gapSize: int): (fs: seq<Frag>)
    requires gap + gapSize != 0
    ensures forall j :: 0 <= j < |fs| ==> fs[j].color == c
  {
    Select(LinePath(l), DashPattern(|LinePath(l)|, gap + gapSize, gap), Cell(0, 0), c)
  }

  /** Step i of the walk is drawn iff i mod (gap + gapSize) < gap, C's
      remainder. */
  lemma DashFragsHit(l: Line, c: Color, gap: int, gapSize: int, r: int, col: int)
    requires gap + gapSize != 0
    ensures Hits(DashFrags(l, c, gap, gapSize), r, col)
            <==> exists i :: 0 <= i < |LinePath(l)| && CRem(i, gap + gapSize) < gap
                            && LinePath(l)[i] == Cell(col, r)
  {
    var p := LinePath(l);
    var keep := DashPattern(|p|, gap + gapSize, gap);
    SelectHits(p, keep, Cell(0, 0), c, r, col);
    DashKept(p, keep, gap + gapSize, gap, r, col);
  }

  /** Which of n steps a dash pattern draws. */
  function DashPattern(n: nat, period: int, gap: int): (keep: seq<bool>)
    requires period != 0
    ensures |keep| == n && forall i :: 0 <= i < n ==> keep[i] == (CRem(i, period) < gap)
  {
    seq(n, i requires 0 <= i < n => CRem(i, period) < gap)
  }

  /** The writes of Line_drawDashed: exactly the drawn steps get the
      colour; depths and every other pixel keep their values. */
  function DrawDashed(img: Image, l: Line, c: Color, gap: int, gapSize: int): (img': Image)
    requires img.Valid() && gap + gapSize != 0
    ensures img'.Valid() && img'.rows == img.rows && img'.cols == img.cols
    ensures forall r, col :: img.InBounds(r, col) ==>
              GetZ(img', r, col) == GetZ(img, r, col)
              && GetColor(img', r, col)
                 == if exists i :: 0 <= i < |LinePath(l)| && CRem(i, gap + gapSize) < gap
                                 && LinePath(l)[i] == Cell(col, r)
                    then c else GetColor(img, r, col)
  {
    var fs := DashFrags(l, c, gap, gapSize);
    forall r, col | img.InBounds(r, col)
      ensures GetZ(Paint(img, fs), r, col) == GetZ(img, r, col)
      ensures GetColor(Paint(img, fs), r, col)
              == if exists i :: 0 <= i < |LinePath(l)| && CRem(i, gap + gapSize) < gap
                              && LinePath(l)[i] == Cell(col, r)
                 then c else GetColor(img, r, col)
    {
      PaintUniform(img, fs, c, r, col);
      DashFragsHit(l, c, gap, gapSize, r, col);
    }
    Paint(img, fs)
  }

  /** A cell kept by the dash pattern is a step i of the path whose
      remainder lies in the drawn part of the period. */
  lemma DashKept(p: seq<Cell>, keep: seq<bool>, period: int, gap: int, r: int, col: int)
    requires period != 0 && |keep| == |p|
    requires forall i :: 0 <= i < |p| ==> keep[i] == (CRem(i, period) < gap)
    ensures (exists i :: 0 <= i < |p| && keep[i] && p[i].x + Cell(0, 0).x == col && p[i].y + Cell(0, 0).y == r)
            <==> exists i :: 0 <= i < |p| && CRem(i, period) < gap && p[i] == Cell(col, r)
  {
    if exists i :: 0 <= i < |p| && keep[i] && p[i].x + Cell(0, 0).x == col && p[i].y + Cell(0, 0).y == r {
      var i :| 0 <= i < |p| && keep[i] && p[i].x + Cell(0, 0).x == col && p[i].y + Cell(0, 0).y == r;
      assert CRem(i, period) < gap && p[i] == Cell(col, r);
    }
    if exists i :: 0 <= i < |p| && CRem(i, period) < gap && p[i] == Cell(col, r) {
      var i :| 0 <= i < |p| && CRem(i, period) < gap && p[i] == Cell(col, r);
      assert keep[i] && p[i].x + Cell(0, 0).x == col && p[i].y + Cell(0, 0).y == r;
    }
  }

  /** With gapSize 0 every step is drawn: the dashed line is the plain
      walk with no clipping and no offsets. */
  lemma SolidDash(img: Image, l: Line, c: Color, gap: int, r: int, col: int)
    requires img.Valid() && gap > 0 && img.InBounds(r, col)
    ensures GetColor(DrawDashed(img, l, c, gap, 0), r, col)
            == if Cell(col, r) in LinePath(l) then c else GetColor(img, r, col)
  {
    var p := LinePath(l);
    if Cell(col, r) in p {
      var i :| 0 <= i < |p| && p[i] == Cell(col, r);
      assert CRem(i, gap) < gap;
    }
  }

  /** The 1/z values of Line_drawZBuffer: the start depth (that of the
      lower endpoint, even on a downward vertical run, which walks from
      the first endpoint) and the per-step increment.  dz is an int, so
      z1 - z0 is truncated, and dz/dx is C integer division; the
      horizontal and vertical runs keep the increment 0. */
  function ZStartAndStep(l: Line): (zs: (real, real))
    requires l.a.z != 0.0 && l.b.z != 0.0
  {
    var (x0, y0, x1, y1) := Ends(l);
    var z0, z1 := 1.0 / l.a.z, 1.0 / l.b.z;
    var dz := Trunc(z1 - z0);
    var s := Orient(x0, y0, x1, y1);
    var (z, dz') := if y1 - y0 < 0 then (z1, -dz) else (z0, dz);
    match ShapeOf(x0, y0, x1, y1)
    case Octant1 => (z, CDiv(dz', s.dx) as real)
    case Octant2 => (z, CDiv(dz', s.dy) as real)
    case Octant3 => (z, CDiv(dz', s.dy) as real)
    case Octant4 => (z, CDiv(dz', s.dx) as real)
    case _ => (z, 0.0)
  }

  /** The 1/z of step i: start + i·step (exact; the C accumulates it). */
  function DepthAt(zs: (real, real), i: int): real
  {
    zs.0 + i as real * zs.1
  }

  /** The depth-tested writes: step i carries 1/z = start + i·step. */
  function ZFrags(l: Line, c: Color): (fs: seq<Frag>)
    requires l.a.z != 0.0 && l.b.z != 0.0
    ensures |fs| == |LinePath(l)|
    ensures var p, zs := LinePath(l), ZStartAndStep(l);
            forall i :: 0 <= i < |fs| ==>
              fs[i] == Frag(p[i].x, p[i].y, DepthAt(zs, i), c)
  {
    var p, zs := LinePath(l), ZStartAndStep(l);
    seq(|p|, i requires 0 <= i < |p| => Frag(p[i].x, p[i].y, DepthAt(zs, i), c))
  }

  /** Line_drawZBuffer: every walked cell (no offsets, no clipping other
      than the accessors') is drawn only if its 1/z is strictly greater
      than the stored depth.  Depths never decrease; a pixel that changes
      lies on the path, takes colour c and a greater depth; and no walked
      cell is left with a depth below its step's 1/z. */
  function DrawZBuffer(img: Image, l: Line, c: Color): (img': Image)
    requires img.Valid() && l.a.z != 0.0 && l.b.z != 0.0
    ensures img'.Valid() && img'.rows == img.rows && img'.cols == img.cols
    ensures forall r, col :: img.InBounds(r, col) ==>
              && Getf(img', r, col).z >= Getf(img, r, col).z
              && (Getf(img', r, col) != Getf(img, r, col) ==>
                    Cell(col, r) in LinePath(l) && Getf(img', r, col).rgb == c
                    && Getf(img', r, col).z > Getf(img, r, col).z)
              && (forall i :: 0 <= i < |ZFrags(l, c)| && ZFrags(l, c)[i].At(r, col) ==>
                    ZFrags(l, c)[i].z <= Getf(img', r, col).z)
  {
    var fs := ZFrags(l, c);
    var p := LinePath(l);
    forall r, col | img.InBounds(r, col)
      ensures var q, q' := Getf(img, r, col), Getf(DepthTest(img, fs), r, col);
              && q'.z >= q.z
              && (q' != q ==> Cell(col, r) in p && q'.rgb == c && q'.z > q.z)
              && (forall i :: 0 <= i < |fs| && fs[i].At(r, col) ==> fs[i].z <= q'.z)
    {
      DepthTestKeepsNearest(img, fs, r, col);
      var q, q' := Getf(img, r, col), Getf(DepthTest(img, fs), r, col);
      if q' != q {
        var i :| 0 <= i < |fs| && fs[i].At(r, col) && fs[i].z == q'.z && q'.rgb == fs[i].color
                 && forall j :: 0 <= j < i && fs[j].At(r, col) ==> fs[j].z < q'.z;
        assert p[i] == Cell(col, r);
      }
    }
    DepthTest(img, fs)
  }

  /** Line_draw: the depth-tested rasteriser exactly when the flag is 1. */
  function Draw(img: Image, l: Line, c: Color): (img': Image)
    requires img.Valid()
    requires l.zBuffer == 1 ==> l.a.z != 0.0 && l.b.z != 0.0
    ensures img'.Valid() && img'.rows == img.rows && img'.cols == img.cols
    ensures l.zBuffer == 1 ==> img' == DrawZBuffer(img, l, c)
    ensures l.zBuffer != 1 ==> img' == DrawNoZBuffer(img, l, c)
    ensures l.zBuffer != 1 ==> forall r, col :: img.InBounds(r, col) ==> GetZ(img', r, col) == GetZ(img, r, col)
  {
    if l.zBuffer == 1 then DrawZBuffer(img, l, c) else DrawNoZBuffer(img, l, c)
  }

  /** Draws a list of lines in order, as Polygon_drawFrame does with the
      polygon's z-buffer flag on each segment. */
  function DrawAll(img: Image, segs: seq<Line>, c: Color): (img': Image)
    requires img.Valid()
    requires forall i :: 0 <= i < |segs| ==> segs[i].zBuffer != 1
    ensures img'.Valid() && img'.rows == img.rows && img'.cols == img.cols
    ensures forall r, col :: img.InBounds(r, col) ==> GetZ(img', r, col) == GetZ(img, r, col)
    decreases |segs|
  {
    if segs == [] then img else DrawAll(Draw(img, segs[0], c), segs[1..], c)
  }

  /** Point_draw (lib/point.c): colours row (int)y, column (int)x through
      the bounds-checked Image_setColor. */
  function PointDraw(img: Image, p: Point, c: Color): (img': Image)
    requires img.Valid()
    ensures img'.Valid() && img'.rows == img.rows && img'.cols == img.cols
    ensures forall r, col :: img.InBounds(r, col) ==>
              GetZ(img', r, col) == GetZ(img, r, col)
              && GetColor(img', r, col)
                 == if r == Trunc(p.y) && col == Trunc(p.x) then c else GetColor(img, r, col)
  {
    SetColor(img, Trunc(p.y), Trunc(p.x), c)
  }
}

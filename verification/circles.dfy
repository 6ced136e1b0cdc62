/** Midpoint circles (lib/circle.c).  The loop walks one octant from
    (x, y) = (-1, -radius) towards the diagonal, in coordinates relative to
    the centre; every visited point is drawn with its eight reflections,
    which use -v-1 for a mirrored coordinate so that the circle covers the
    pixel squares around the centre symmetrically. */
module Circles {
  import opened CNum
  import opened Geometry
  import opened Colors
  import opened Images
  import opened Raster

  /** Circle_set stores a centre and a radius; this constructor is it. */
  datatype Circle = Circle(r: real, c: Point)

  /** One state of the midpoint loop: the current point and the decision
      variable after it was updated. */
  datatype Mid = Mid(x: int, y: int, p: int)

  /** The value the decision variable holds at (x, y): it starts at
      1 - radius at (-1, -radius) and grows as the point leaves the
      circle. */
  function Decision(radius: int, x: int, y: int): int
  {
    x * x - 2 * x + y * y + y - radius * radius - 2
  }

  /** The states Circle_draw visits for a radius, in order: the start
      state, then one per loop iteration.  Each iteration moves x one step
      further out, and moves y one step in exactly when the previous
      decision value was non-negative; the loop runs while x > y. */
  predicate IsOctant(radius: int, trace: seq<Mid>)
  {
    && |trace| >= 1
    && trace[0] == Mid(-1, -radius, 1 - radius)
    && (forall i :: 0 <= i < |trace| ==> trace[i].p == Decision(radius, trace[i].x, trace[i].y))
    && (forall i :: 0 <= i < |trace| - 1 ==> trace[i].x > trace[i].y)
    && trace[|trace| - 1].x <= trace[|trace| - 1].y
    && (forall i :: 0 < i < |trace| ==>
          trace[i].x == trace[i - 1].x - 1
          && trace[i].y == (if trace[i - 1].p < 0 then trace[i - 1].y else trace[i - 1].y + 1))
  }

  /** The loop of Circle_draw (lib/circle.c:32-50), returning the states it
      visits.  It terminates because x - y shrinks by one or two each
      iteration. */
  method Octant(radius: int) returns (trace: seq<Mid>)
    ensures IsOctant(radius, trace)
    ensures radius >= 0 ==> |trace| <= radius + 1
  {
    var x, y, p := -1, -radius, 1 - radius;
    trace := [Mid(x, y, p)];
    while x > y
      invariant |trace| >= 1 && trace[0] == Mid(-1, -radius, 1 - radius)
      invariant trace[|trace| - 1] == Mid(x, y, p)
      invariant p == Decision(radius, x, y)
      invariant OctantSoFar(radius, trace)
      invariant radius >= 0 ==> x - y >= -1 && x - y + |trace| <= radius
      decreases x - y
    {
      DecisionSteps(radius, x, y);
      x := x - 1;
      if p < 0 {
        p := p + 1 - 2 * x;
      } else {
        y := y + 1;
        p := p + 1 - 2 * (x - y);
      }
      OctantExtend(radius, trace, Mid(x, y, p));
      trace := trace + [Mid(x, y, p)];
    }
  }

  /** The facts of IsOctant about the states visited so far, every one
      of which passed the loop test except possibly the last. */
  predicate OctantSoFar(radius: int, trace: seq<Mid>)
  {
    && (forall i :: 0 <= i < |trace| ==> trace[i].p == Decision(radius, trace[i].x, trace[i].y))
    && (forall i :: 0 <= i < |trace| - 1 ==> trace[i].x > trace[i].y)
    && (forall i :: 0 < i < |trace| ==>
          trace[i].x == trace[i - 1].x - 1
          && trace[i].y == (if trace[i - 1].p < 0 then trace[i - 1].y else trace[i - 1].y + 1))
  }

  /** Appending the state one loop iteration reaches keeps those facts. */
  lemma OctantExtend(radius: int, trace: seq<Mid>, m: Mid)
    requires |trace| >= 1 && OctantSoFar(radius, trace)
    requires var l := trace[|trace| - 1];
             && l.x > l.y && m.p == Decision(radius, m.x, m.y)
             && m.x == l.x - 1 && m.y == (if l.p < 0 then l.y else l.y + 1)
    ensures OctantSoFar(radius, trace + [m])
  {
    var t' := trace + [m];
    assert forall i :: 0 <= i < |trace| ==> t'[i] == trace[i];
    assert t'[|trace|] == m;
  }

  /** The two updates of the decision variable in Circle_draw keep it
      equal to Decision at the new point. */
  lemma DecisionSteps(radius: int, x: int, y: int)
    ensures Decision(radius, x - 1, y) == Decision(radius, x, y) + 1 - 2 * (x - 1)
    ensures Decision(radius, x - 1, y + 1) == Decision(radius, x, y) + 1 - 2 * ((x - 1) - (y + 1))
  {
  }

  /** The octant trace is determined by the radius: the contract of
      Octant describes exactly one sequence. */
  lemma OctantUnique(radius: int, t1: seq<Mid>, t2: seq<Mid>)
    requires IsOctant(radius, t1) && IsOctant(radius, t2)
    ensures t1 == t2
  {
    var n := if |t1| < |t2| then |t1| else |t2|;
    var k := 0;
    while k < n
      invariant 0 <= k <= n
      invariant forall i :: 0 <= i < k ==> t1[i] == t2[i]
    {
      if k > 0 {
        assert t1[k - 1] == t2[k - 1];
        assert t1[k].x == t2[k].x && t1[k].y == t2[k].y;
      }
      k := k + 1;
    }
  }

  /** Circle_plotPoints: the eight reflections of (x, y) about the centre,
      in the order the C writes them (column cx + …, row cy + …). */
  function PlotPoints(cx: int, cy: int, x: int, y: int, col: Color): (fs: seq<Frag>)
    ensures |fs| == 8 && forall i :: 0 <= i < 8 ==> fs[i].color == col
  {
    [Frag(cx + x, cy + y, 0.0, col), Frag(cx - x - 1, cy + y, 0.0, col),
     Frag(cx + x, cy - y - 1, 0.0, col), Frag(cx - x - 1, cy - y - 1, 0.0, col),
     Frag(cx + y, cy + x, 0.0, col), Frag(cx - y - 1, cy + x, 0.0, col),
     Frag(cx + y, cy - x - 1, 0.0, col), Frag(cx - y - 1, cy - x - 1, 0.0, col)]
  }

  /** The eight pixels are closed under the circle's symmetries: mirroring
      a column about the centre (c ↦ 2·cx - 1 - c), mirroring a row
      (r ↦ 2·cy - 1 - r), and swapping the offsets along the diagonal. */
  lemma PlotPointsSymmetric(cx: int, cy: int, x: int, y: int, col: Color, r: int, c: int)
    requires Hits(PlotPoints(cx, cy, x, y, col), r, c)
    ensures Hits(PlotPoints(cx, cy, x, y, col), r, 2 * cx - 1 - c)
    ensures Hits(PlotPoints(cx, cy, x, y, col), 2 * cy - 1 - r, c)
    ensures Hits(PlotPoints(cx, cy, x, y, col), cy + (c - cx), cx + (r - cy))
  {
    MirrorColumn(cx, cy, x, y, col, r, c);
    MirrorRow(cx, cy, x, y, col, r, c);
    SwapDiagonal(cx, cy, x, y, col, r, c);
  }

  lemma MirrorColumn(cx: int, cy: int, x: int, y: int, col: Color, r: int, c: int)
    requires Hits(PlotPoints(cx, cy, x, y, col), r, c)
    ensures Hits(PlotPoints(cx, cy, x, y, col), r, 2 * cx - 1 - c)
  {
    var fs := PlotPoints(cx, cy, x, y, col);
    var i :| 0 <= i < |fs| && fs[i].At(r, c);
    // the index of the pixel mirrored across the centre column
    var mc := [1, 0, 3, 2, 5, 4, 7, 6];
    assert fs[mc[i]].At(r, 2 * cx - 1 - c);
  }

  lemma MirrorRow(cx: int, cy: int, x: int, y: int, col: Color, r: int, c: int)
    requires Hits(PlotPoints(cx, cy, x, y, col), r, c)
    ensures Hits(PlotPoints(cx, cy, x, y, col), 2 * cy - 1 - r, c)
  {
    var fs := PlotPoints(cx, cy, x, y, col);
    var i :| 0 <= i < |fs| && fs[i].At(r, c);
    // the index of the pixel mirrored across the centre row
    var mr := [2, 3, 0, 1, 6, 7, 4, 5];
    assert fs[mr[i]].At(2 * cy - 1 - r, c);
  }

  lemma SwapDiagonal(cx: int, cy: int, x: int, y: int, col: Color, r: int, c: int)
    requires Hits(PlotPoints(cx, cy, x, y, col), r, c)
    ensures Hits(PlotPoints(cx, cy, x, y, col), cy + (c - cx), cx + (r - cy))
  {
    var fs := PlotPoints(cx, cy, x, y, col);
    var i :| 0 <= i < |fs| && fs[i].At(r, c);
    // the index of the pixel with its offsets swapped
    var sw := [4, 6, 5, 7, 0, 2, 1, 3];
    assert fs[sw[i]].At(cy + (c - cx), cx + (r - cy));
  }

  /** Circle_draw: the radius and the centre are truncated to int, the
      octant is walked, and every visited point is plotted with its
      reflections.  Exactly the reflected pixels that lie in the image get
      the colour; depths and all other pixels are untouched. */
  method Draw(img: Image, circle: Circle, col: Color) returns (img': Image, trace: seq<Mid>)
    requires img.Valid()
    ensures IsOctant(Trunc(circle.r), trace)
    ensures img'.Valid() && img'.rows == img.rows && img'.cols == img.cols
    ensures forall r, c :: img.InBounds(r, c) ==>
              GetZ(img', r, c) == GetZ(img, r, c)
              && GetColor(img', r, c)
                 == if exists i :: 0 <= i < |trace|
                                   && Hits(PlotPoints(Trunc(circle.c.x), Trunc(circle.c.y), trace[i].x, trace[i].y, col), r, c)
                    then col else GetColor(img, r, c)
  {
    trace := Octant(Trunc(circle.r));
    var cx, cy := Trunc(circle.c.x), Trunc(circle.c.y);
    var f := (m: Mid) => PlotPoints(cx, cy, m.x, m.y, col);
    img' := Paint(img, Spread(trace, f));
    forall r, c | img.InBounds(r, c)
      ensures GetZ(img', r, c) == GetZ(img, r, c)
      ensures GetColor(img', r, c)
              == if exists i :: 0 <= i < |trace| && Hits(f(trace[i]), r, c) then col else GetColor(img, r, c)
    {
      PaintSpread(img, trace, f, col, r, c);
    }
  }

  /** Circle_fillPoints: on rows cy + y and cy - y - 1 the columns
      cx + x … cx - x - 2, then on rows cy + x and cy - x - 1 the columns
      cx + y … cx - y - 2. */
  function FillPoints(cx: int, cy: int, x: int, y: int, col: Color): (fs: seq<Frag>)
    ensures forall i :: 0 <= i < |fs| ==> fs[i].color == col
    ensures forall r, c :: Hits(fs, r, c) <==>
              ((r == cy + y || r == cy - y - 1) && cx + x <= c < cx - x - 1)
              || ((r == cy + x || r == cy - x - 1) && cx + y <= c < cx - y - 1)
  {
    var a := RowPair(cy + y, cy - y - 1, cx + x, cx - x - 1, col);
    var b := RowPair(cy + x, cy - x - 1, cx + y, cx - y - 1, col);
    forall r, c
      ensures Hits(a + b, r, c) <==> Hits(a, r, c) || Hits(b, r, c)
    {
      HitsAppend(a, b, r, c);
    }
    a + b
  }

  /** The spans of Circle_fillPoints stop one column short on the right:
      at the first loop state for radius 2 about (0, 0), the outline pixel
      at row -2, column 0 is drawn by Circle_plotPoints but not filled,
      while its mirror image at column -1 is, so the filled disc is not
      symmetric about its centre as the outline is. */
  lemma FillPointsMissesOutline(col: Color)
    ensures Hits(PlotPoints(0, 0, -1, -2, col), -2, 0)
    ensures !Hits(FillPoints(0, 0, -1, -2, col), -2, 0)
    ensures Hits(FillPoints(0, 0, -1, -2, col), -2, -1)
  {
    assert PlotPoints(0, 0, -1, -2, col)[1].At(-2, 0);
  }

  /** The fill spans as evidently intended: on each row, every column from
      the left reflection to the right reflection inclusive. */
  function FillPointsIntended(cx: int, cy: int, x: int, y: int, col: Color): (fs: seq<Frag>)
    ensures forall i :: 0 <= i < |fs| ==> fs[i].color == col
    ensures forall r, c :: Hits(fs, r, c) <==>
              ((r == cy + y || r == cy - y - 1) && cx + x <= c <= cx - x - 1)
              || ((r == cy + x || r == cy - x - 1) && cx + y <= c <= cx - y - 1)
  {
    var a := RowPair(cy + y, cy - y - 1, cx + x, cx - x, col);
    var b := RowPair(cy + x, cy - x - 1, cx + y, cx - y, col);
    forall r, c
      ensures Hits(a + b, r, c) <==> Hits(a, r, c) || Hits(b, r, c)
    {
      HitsAppend(a, b, r, c);
    }
    a + b
  }

  /** The intended spans are symmetric about the centre column, as the
      outline is, and cover all eight outline pixels of a point left of
      and above the centre (as every point of the octant walk is, for a
      radius of at least 1). */
  lemma FillPointsIntendedCoversOutline(cx: int, cy: int, x: int, y: int, col: Color, r: int, c: int)
    ensures Hits(FillPointsIntended(cx, cy, x, y, col), r, c)
            <==> Hits(FillPointsIntended(cx, cy, x, y, col), r, 2 * cx - 1 - c)
    ensures x < 0 && y < 0 && Hits(PlotPoints(cx, cy, x, y, col), r, c) ==>
              Hits(FillPointsIntended(cx, cy, x, y, col), r, c)
  {
    if x < 0 && y < 0 && Hits(PlotPoints(cx, cy, x, y, col), r, c) {
      var fs := PlotPoints(cx, cy, x, y, col);
      var i :| 0 <= i < |fs| && fs[i].At(r, c);
    }
  }

  /** Every state of the octant walk for a radius of at least 1 lies left
      of and above the centre. */
  lemma OctantInQuadrant(radius: int, trace: seq<Mid>, i: int)
    requires IsOctant(radius, trace) && radius >= 1 && 0 <= i < |trace|
    ensures trace[i].x < 0 && trace[i].y < 0
  {
    var k := 0;
    while k < i
      invariant 0 <= k <= i
      invariant trace[k].x < 0 && trace[k].y < 0
    {
      assert trace[k].x > trace[k].y;
      k := k + 1;
    }
  }

  /** Circle_drawFill: the same walk as Circle_draw, with the horizontal
      spans of Circle_fillPoints between each pair of reflections filled
      instead, one column short on the right as written (see
      FillPointsMissesOutline). */
  method DrawFill(img: Image, circle: Circle, col: Color) returns (img': Image, trace: seq<Mid>)
    requires img.Valid()
    ensures IsOctant(Trunc(circle.r), trace)
    ensures img'.Valid() && img'.rows == img.rows && img'.cols == img.cols
    ensures forall r, c :: img.InBounds(r, c) ==>
              GetZ(img', r, c) == GetZ(img, r, c)
              && GetColor(img', r, c)
                 == if exists i :: 0 <= i < |trace|
                                   && Hits(FillPoints(Trunc(circle.c.x), Trunc(circle.c.y), trace[i].x, trace[i].y, col), r, c)
                    then col else GetColor(img, r, c)
  {
    trace := Octant(Trunc(circle.r));
    var cx, cy := Trunc(circle.c.x), Trunc(circle.c.y);
    var f := (m: Mid) => FillPoints(cx, cy, m.x, m.y, col);
    img' := Paint(img, Spread(trace, f));
    forall r, c | img.InBounds(r, c)
      ensures GetZ(img', r, c) == GetZ(img, r, c)
      ensures GetColor(img', r, c)
              == if exists i :: 0 <= i < |trace| && Hits(f(trace[i]), r, c) then col else GetColor(img, r, c)
    {
      PaintSpread(img, trace, f, col, r, c);
    }
  }

  /** Circle_drawFill with the spans as intended.  The filled pixels
      include the whole outline Circle_draw would draw. */
  method DrawFillIntended(img: Image, circle: Circle, col: Color) returns (img': Image, trace: seq<Mid>)
    requires img.Valid()
    ensures IsOctant(Trunc(circle.r), trace)
    ensures img'.Valid() && img'.rows == img.rows && img'.cols == img.cols
    ensures forall r, c :: img.InBounds(r, c) ==>
              GetZ(img', r, c) == GetZ(img, r, c)
              && GetColor(img', r, c)
                 == if exists i :: 0 <= i < |trace|
                                   && Hits(FillPointsIntended(Trunc(circle.c.x), Trunc(circle.c.y), trace[i].x, trace[i].y, col), r, c)
                    then col else GetColor(img, r, c)
  {
    trace := Octant(Trunc(circle.r));
    var cx, cy := Trunc(circle.c.x), Trunc(circle.c.y);
    var f := (m: Mid) => FillPointsIntended(cx, cy, m.x, m.y, col);
    img' := Paint(img, Spread(trace, f));
    forall r, c | img.InBounds(r, c)
      ensures GetZ(img', r, c) == GetZ(img, r, c)
      ensures GetColor(img', r, c)
              == if exists i :: 0 <= i < |trace| && Hits(f(trace[i]), r, c) then col else GetColor(img, r, c)
    {
      PaintSpread(img, trace, f, col, r, c);
    }
  }

  /** The spans as written are the intended ones less their right-most
      column: every pixel Circle_drawFill fills the corrected fill fills
      too, and the corrected fill adds only the column of the right
      reflection on each row. */
  lemma FillPointsWithinIntended(cx: int, cy: int, x: int, y: int, col: Color, r: int, c: int)
    ensures Hits(FillPoints(cx, cy, x, y, col), r, c) ==> Hits(FillPointsIntended(cx, cy, x, y, col), r, c)
    ensures Hits(FillPointsIntended(cx, cy, x, y, col), r, c) && !Hits(FillPoints(cx, cy, x, y, col), r, c)
            ==> c == cx - x - 1 || c == cx - y - 1
  {
  }
}

/** Midpoint ellipses (lib/ellipse.c).  The loop walks one quadrant from
    (x, y) = (-1, -Ry) in two regions: first x steps every iteration while
    the slope is shallow (px < py), then y steps every iteration until it
    reaches 0.  Every visited point is drawn with its four reflections,
    using -v-1 for a mirrored coordinate as the circle does. */
module Ellipses {
  import opened CNum
  import opened Geometry
  import opened Colors
  import opened Images
  import opened Raster

  /** Ellipse_set stores a centre and the two radii; this constructor is
      it. */
  datatype Ellipse = Ellipse(c: Point, ra: real, rb: real)

  /** One state of the midpoint loop: the point, the two slope terms and
      the decision variable after the iteration updated them. */
  datatype EMid = EMid(x: int, y: int, px: int, py: int, p: int)

  /** The start state: px = 2·Ry², py = 2·Rx²·Ry and the first-region
      decision value, whose Rx²/4 is a C integer division. */
  function Start(rx: int, ry: int): EMid
  {
    var px := 2 * ry * ry;
    EMid(-1, -ry, px, 2 * rx * rx * ry, ry * ry - rx * rx * ry + CDiv(rx * rx, 4) + ry * ry + px)
  }

  /** One iteration of the first region: x steps out; y steps in when the
      decision value was non-negative. */
  function Step1(rx: int, ry: int, s: EMid): EMid
  {
    var x, px := s.x - 1, s.px + 2 * ry * ry;
    if s.p < 0 then EMid(x, s.y, px, s.py, s.p + ry * ry + px)
    else
      var y, py := s.y + 1, s.py - 2 * rx * rx;
      EMid(x, y, px, py, s.p + ry * ry + px - py)
  }

  /** The decision value recomputed between the regions. */
  function Switch(rx: int, ry: int, s: EMid): EMid
  {
    s.(p := ry * ry * (s.x * s.x + s.x) + rx * rx * (s.y * s.y - 2 * s.y + 1) - rx * rx * ry * ry + rx * rx - s.py)
  }

  /** One iteration of the second region: y steps in; x steps out when the
      decision value was not positive. */
  function Step2(rx: int, ry: int, s: EMid): EMid
  {
    var y, py := s.y + 1, s.py - 2 * rx * rx;
    if s.p > 0 then EMid(s.x, y, s.px, py, s.p + rx * rx - py)
    else
      var x, px := s.x - 1, s.px + 2 * ry * ry;
      EMid(x, y, px, py, s.p + rx * rx - py + px)
  }

  /** The state the i-th second-region iteration starts from. */
  function Before2(rx: int, ry: int, r1: seq<EMid>, r2: seq<EMid>, i: int): EMid
    requires |r1| >= 1 && 0 <= i <= |r2|
  {
    if i == 0 then Switch(rx, ry, r1[|r1| - 1]) else r2[i - 1]
  }

  /** The states Ellipse_draw visits, region by region: r1 is the start
      state and one state per first-region iteration, r2 one state per
      second-region iteration.  Each region iterates while its guard
      holds and stops as soon as it fails. */
  predicate IsQuadrant(rx: int, ry: int, r1: seq<EMid>, r2: seq<EMid>)
  {
    && |r1| >= 1
    && r1[0] == Start(rx, ry)
    && (forall i :: 0 <= i < |r1| - 1 ==> r1[i].px < r1[i].py && r1[i + 1] == Step1(rx, ry, r1[i]))
    && r1[|r1| - 1].px >= r1[|r1| - 1].py
    && (forall i :: 0 <= i < |r2| ==> Before2(rx, ry, r1, r2, i).y < 0 && r2[i] == Step2(rx, ry, Before2(rx, ry, r1, r2, i)))
    && Before2(rx, ry, r1, r2, |r2|).y >= 0
  }

  /** The slope terms of a state are px = 2·Ry²·(-x) and py = 2·Rx²·(-y). */
  predicate Slopes(rx: int, ry: int, s: EMid)
  {
    s.px == 2 * ry * ry * (-s.x) && s.py == 2 * rx * rx * (-s.y)
  }

  /** The loops of Ellipse_draw (lib/ellipse.c:45-84), returning the
      states they visit.  The slope terms track x and y throughout; the
      first region moves x by exactly one per iteration, the second moves
      y by exactly one; with Ry >= 0 the walk ends on y = 0. */
  method Quadrant(rx: int, ry: int) returns (r1: seq<EMid>, r2: seq<EMid>)
    ensures IsQuadrant(rx, ry, r1, r2)
    ensures forall i :: 0 <= i < |r1| ==> Slopes(rx, ry, r1[i])
    ensures forall i :: 0 <= i < |r2| ==> Slopes(rx, ry, r2[i])
    ensures forall i :: 0 < i < |r1| ==> r1[i].x == r1[i - 1].x - 1
    ensures forall i :: 0 < i < |r2| ==> r2[i].y == r2[i - 1].y + 1
    ensures |r2| > 0 ==> r2[0].y == r1[|r1| - 1].y + 1
    ensures ry >= 0 ==> (if |r2| == 0 then r1[|r1| - 1] else r2[|r2| - 1]).y == 0
  {
    r1 := Region1(rx, ry);
    r2 := Region2(rx, ry, r1);
  }

  /** The first loop of Ellipse_draw (lib/ellipse.c:55-68): runs while
      px < py, x stepping out by one each time.  It terminates because
      py - px shrinks: px grows by 2·Ry² > 0 (with Ry = 0 it never runs). */
  method Region1(rx: int, ry: int) returns (r1: seq<EMid>)
    ensures |r1| >= 1 && r1[0] == Start(rx, ry)
    ensures forall i :: 0 <= i < |r1| - 1 ==> r1[i].px < r1[i].py && r1[i + 1] == Step1(rx, ry, r1[i])
    ensures r1[|r1| - 1].px >= r1[|r1| - 1].py
    ensures forall i :: 0 <= i < |r1| ==> Slopes(rx, ry, r1[i])
    ensures forall i :: 0 < i < |r1| ==> r1[i].x == r1[i - 1].x - 1
    ensures ry >= 0 ==> r1[|r1| - 1].y <= 0
  {
    var s := Start(rx, ry);
    r1 := [s];
    NonNegSquare(ry);
    while s.px < s.py
      invariant |r1| >= 1 && r1[0] == Start(rx, ry) && r1[|r1| - 1] == s
      invariant Trace1(rx, ry, r1) && SlopesAll(rx, ry, r1) && XSteps(r1)
      invariant s.x < 0
      invariant ry >= 0 ==> s.y <= 0
      invariant ry == 0 ==> s.y == 0
      decreases s.py - s.px
    {
      Step1Facts(rx, ry, s);
      Region1Extend(rx, ry, r1);
      s := Step1(rx, ry, s);
      r1 := r1 + [s];
    }
  }

  /** The first loop's visited states: each came from the one before by
      Step1 while the guard held. */
  predicate Trace1(rx: int, ry: int, r1: seq<EMid>)
  {
    forall i :: 0 <= i < |r1| - 1 ==> r1[i].px < r1[i].py && r1[i + 1] == Step1(rx, ry, r1[i])
  }

  /** In the first region x steps out by one each time. */
  predicate XSteps(r1: seq<EMid>)
  {
    forall i :: 0 < i < |r1| ==> r1[i].x == r1[i - 1].x - 1
  }

  /** One more first-region iteration keeps the loop's facts. */
  lemma Region1Extend(rx: int, ry: int, r1: seq<EMid>)
    requires |r1| >= 1 && Trace1(rx, ry, r1) && SlopesAll(rx, ry, r1) && XSteps(r1)
    requires var s := r1[|r1| - 1]; s.px < s.py && Step1(rx, ry, s).x == s.x - 1
    requires Slopes(rx, ry, Step1(rx, ry, r1[|r1| - 1]))
    ensures var r1' := r1 + [Step1(rx, ry, r1[|r1| - 1])];
            Trace1(rx, ry, r1') && SlopesAll(rx, ry, r1') && XSteps(r1')
  {
    var t := Step1(rx, ry, r1[|r1| - 1]);
    var r1' := r1 + [t];
    assert forall i :: 0 <= i < |r1| ==> r1'[i] == r1[i];
    assert r1'[|r1|] == t;
  }

  /** The second loop of Ellipse_draw (lib/ellipse.c:69-84): the decision
      value is recomputed, then the loop runs while y < 0, y stepping in by
      one each time, so with Ry >= 0 it stops exactly on y = 0. */
  method Region2(rx: int, ry: int, r1: seq<EMid>) returns (r2: seq<EMid>)
    requires |r1| >= 1 && Slopes(rx, ry, r1[|r1| - 1])
    requires ry >= 0 ==> r1[|r1| - 1].y <= 0
    ensures forall i :: 0 <= i < |r2| ==> Before2(rx, ry, r1, r2, i).y < 0 && r2[i] == Step2(rx, ry, Before2(rx, ry, r1, r2, i))
    ensures Before2(rx, ry, r1, r2, |r2|).y >= 0
    ensures forall i :: 0 <= i < |r2| ==> Slopes(rx, ry, r2[i])
    ensures forall i :: 0 < i < |r2| ==> r2[i].y == r2[i - 1].y + 1
    ensures |r2| > 0 ==> r2[0].y == r1[|r1| - 1].y + 1
    ensures ry >= 0 ==> Before2(rx, ry, r1, r2, |r2|).y == 0
  {
    r2 := [];
    var s := Switch(rx, ry, r1[|r1| - 1]);
    assert Slopes(rx, ry, s);
    while s.y < 0
      invariant s == Before2(rx, ry, r1, r2, |r2|)
      invariant Region2Inv(rx, ry, r1, r2)
      invariant Slopes(rx, ry, s)
      invariant ry >= 0 ==> s.y <= 0
      decreases -s.y
    {
      Region2Extend(rx, ry, r1, r2, s);
      s := Step2(rx, ry, s);
      r2 := r2 + [s];
    }
  }

  /** What the second loop keeps about the states it has visited: each
      came from the one before by Step2, the slope terms track x and y,
      and y steps by one. */
  predicate Region2Inv(rx: int, ry: int, r1: seq<EMid>, r2: seq<EMid>)
    requires |r1| >= 1
  {
    Trace2(rx, ry, r1, r2) && SlopesAll(rx, ry, r2) && YSteps(r1, r2)
  }

  predicate Trace2(rx: int, ry: int, r1: seq<EMid>, r2: seq<EMid>)
    requires |r1| >= 1
  {
    forall i :: 0 <= i < |r2| ==> Before2(rx, ry, r1, r2, i).y < 0 && r2[i] == Step2(rx, ry, Before2(rx, ry, r1, r2, i))
  }

  predicate SlopesAll(rx: int, ry: int, r: seq<EMid>)
  {
    forall i :: 0 <= i < |r| ==> Slopes(rx, ry, r[i])
  }

  predicate YSteps(r1: seq<EMid>, r2: seq<EMid>)
    requires |r1| >= 1
  {
    && (forall i :: 0 < i < |r2| ==> r2[i].y == r2[i - 1].y + 1)
    && (|r2| > 0 ==> r2[0].y == r1[|r1| - 1].y + 1)
  }

  /** One more second-region iteration keeps the loop's facts. */
  lemma Region2Extend(rx: int, ry: int, r1: seq<EMid>, r2: seq<EMid>, s: EMid)
    requires |r1| >= 1 && Region2Inv(rx, ry, r1, r2)
    requires s == Before2(rx, ry, r1, r2, |r2|) && Slopes(rx, ry, s) && s.y < 0
    ensures var t := Step2(rx, ry, s);
            && t == Before2(rx, ry, r1, r2 + [t], |r2| + 1)
            && Region2Inv(rx, ry, r1, r2 + [t])
            && Slopes(rx, ry, t) && t.y == s.y + 1 <= 0
  {
    Step2Facts(rx, ry, s);
    Trace2Extend(rx, ry, r1, r2, s);
    SlopesAllExtend(rx, ry, r2, Step2(rx, ry, s));
    YStepsExtend(rx, ry, r1, r2, s);
  }

  lemma Trace2Extend(rx: int, ry: int, r1: seq<EMid>, r2: seq<EMid>, s: EMid)
    requires |r1| >= 1 && Trace2(rx, ry, r1, r2)
    requires s == Before2(rx, ry, r1, r2, |r2|) && s.y < 0
    ensures var t := Step2(rx, ry, s);
            t == Before2(rx, ry, r1, r2 + [t], |r2| + 1) && Trace2(rx, ry, r1, r2 + [t])
  {
    var t := Step2(rx, ry, s);
    Before2Extend(rx, ry, r1, r2, t);
    var r2' := r2 + [t];
    forall i | 0 <= i < |r2'|
      ensures Before2(rx, ry, r1, r2', i).y < 0 && r2'[i] == Step2(rx, ry, Before2(rx, ry, r1, r2', i))
    {
      assert Before2(rx, ry, r1, r2', i) == Before2(rx, ry, r1, r2, i);
      if i < |r2| {
        assert r2'[i] == r2[i];
      } else {
        assert r2'[i] == t;
      }
    }
  }

  lemma SlopesAllExtend(rx: int, ry: int, r: seq<EMid>, t: EMid)
    requires SlopesAll(rx, ry, r) && Slopes(rx, ry, t)
    ensures SlopesAll(rx, ry, r + [t])
  {
    var r' := r + [t];
    assert forall i :: 0 <= i < |r| ==> r'[i] == r[i];
  }

  lemma YStepsExtend(rx: int, ry: int, r1: seq<EMid>, r2: seq<EMid>, s: EMid)
    requires |r1| >= 1 && YSteps(r1, r2)
    requires s == Before2(rx, ry, r1, r2, |r2|)
    ensures YSteps(r1, r2 + [Step2(rx, ry, s)])
  {
    var r2' := r2 + [Step2(rx, ry, s)];
    assert forall i :: 0 <= i < |r2| ==> r2'[i] == r2[i];
    if |r2| == 0 {
      assert s == Switch(rx, ry, r1[|r1| - 1]);
    }
  }

  /** A square is never negative. */
  lemma NonNegSquare(a: int)
    ensures a * a >= 0
    ensures a != 0 ==> a * a > 0
  {
  }

  /** Both iterations keep the slope terms in step with x and y. */
  lemma Step1Slopes(rx: int, ry: int, s: EMid)
    requires Slopes(rx, ry, s)
    ensures Slopes(rx, ry, Step1(rx, ry, s))
  {
  }

  lemma Step2Slopes(rx: int, ry: int, s: EMid)
    requires Slopes(rx, ry, s)
    ensures Slopes(rx, ry, Step2(rx, ry, s))
  {
  }

  /** What one first-region iteration keeps: the slope terms, x stepping
      out by one, the point staying above the centre, and the distance
      py - px shrinking. */
  lemma Step1Facts(rx: int, ry: int, s: EMid)
    requires Slopes(rx, ry, s) && s.x < 0 && s.px < s.py
    requires ry >= 0 ==> s.y <= 0
    requires ry == 0 ==> s.y == 0
    ensures Slopes(rx, ry, Step1(rx, ry, s))
    ensures Step1(rx, ry, s).x == s.x - 1 < 0
    ensures ry >= 0 ==> Step1(rx, ry, s).y <= 0
    ensures ry == 0 ==> Step1(rx, ry, s).y == 0
    ensures Step1(rx, ry, s).py - Step1(rx, ry, s).px < s.py - s.px
  {
    Step1Slopes(rx, ry, s);
    NonNegSquare(ry);
    NonNegSquare(rx);
    if s.p >= 0 {
      GuardMeansAbove(rx, ry, s);
    }
  }

  /** What one second-region iteration keeps: the slope terms, y stepping
      in by one, and (with Ry >= 0) y never passing 0. */
  lemma Step2Facts(rx: int, ry: int, s: EMid)
    requires Slopes(rx, ry, s) && s.y < 0
    ensures Slopes(rx, ry, Step2(rx, ry, s))
    ensures Step2(rx, ry, s).y == s.y + 1 <= 0
  {
    Step2Slopes(rx, ry, s);
  }

  /** Appending a state leaves the start states of the earlier
      second-region iterations as they were. */
  lemma Before2Extend(rx: int, ry: int, r1: seq<EMid>, r2: seq<EMid>, t: EMid)
    requires |r1| >= 1
    ensures forall i :: 0 <= i <= |r2| ==> Before2(rx, ry, r1, r2 + [t], i) == Before2(rx, ry, r1, r2, i)
    ensures Before2(rx, ry, r1, r2 + [t], |r2| + 1) == t
  {
  }

  /** While the first region runs (px < py, with x < 0) the point is still
      above the centre, so its y step cannot overshoot 0. */
  lemma GuardMeansAbove(rx: int, ry: int, s: EMid)
    requires Slopes(rx, ry, s) && s.x < 0 && s.px < s.py
    ensures s.y < 0
  {
    NonNegSquare(ry);
    NonNegSquare(rx);
    assert s.px >= 0 by {
      assert s.px == (2 * ry * ry) * (-s.x);
    }
  }

  /** Ellipse_plotPoints: the four reflections of (x, y) about the centre,
      in the order the C writes them. */
  function PlotPoints(cx: int, cy: int, x: int, y: int, col: Color): (fs: seq<Frag>)
    ensures |fs| == 4 && forall i :: 0 <= i < 4 ==> fs[i].color == col
  {
    [Frag(cx + x, cy + y, 0.0, col), Frag(cx - x - 1, cy + y, 0.0, col),
     Frag(cx + x, cy - y - 1, 0.0, col), Frag(cx - x - 1, cy - y - 1, 0.0, col)]
  }

  /** The four pixels are closed under the two mirror images about the
      centre column and the centre row. */
  lemma PlotPointsSymmetric(cx: int, cy: int, x: int, y: int, col: Color, r: int, c: int)
    requires Hits(PlotPoints(cx, cy, x, y, col), r, c)
    ensures Hits(PlotPoints(cx, cy, x, y, col), r, 2 * cx - 1 - c)
    ensures Hits(PlotPoints(cx, cy, x, y, col), 2 * cy - 1 - r, c)
  {
    var fs := PlotPoints(cx, cy, x, y, col);
    var i :| 0 <= i < |fs| && fs[i].At(r, c);
    var mc := [1, 0, 3, 2];
    var mr := [2, 3, 0, 1];
    assert fs[mc[i]].At(r, 2 * cx - 1 - c);
    assert fs[mr[i]].At(2 * cy - 1 - r, c);
  }

  /** Ellipse_draw: centre and radii truncated to int, the quadrant walked,
      and every visited point plotted with its reflections.  Exactly those
      pixels that lie in the image get the colour. */
  method Draw(img: Image, e: Ellipse, col: Color) returns (img': Image, r1: seq<EMid>, r2: seq<EMid>)
    requires img.Valid()
    ensures IsQuadrant(Trunc(e.ra), Trunc(e.rb), r1, r2)
    ensures img'.Valid() && img'.rows == img.rows && img'.cols == img.cols
    ensures forall r, c :: img.InBounds(r, c) ==>
              GetZ(img', r, c) == GetZ(img, r, c)
              && GetColor(img', r, c)
                 == if exists i :: 0 <= i < |r1 + r2|
                                   && Hits(PlotPoints(Trunc(e.c.x), Trunc(e.c.y), (r1 + r2)[i].x, (r1 + r2)[i].y, col), r, c)
                    then col else GetColor(img, r, c)
  {
    r1, r2 := Quadrant(Trunc(e.ra), Trunc(e.rb));
    var cx, cy := Trunc(e.c.x), Trunc(e.c.y);
    var f := (m: EMid) => PlotPoints(cx, cy, m.x, m.y, col);
    img' := Paint(img, Spread(r1 + r2, f));
    forall r, c | img.InBounds(r, c)
      ensures GetZ(img', r, c) == GetZ(img, r, c)
      ensures GetColor(img', r, c)
              == if exists i :: 0 <= i < |r1 + r2| && Hits(f((r1 + r2)[i]), r, c) then col else GetColor(img, r, c)
    {
      PaintSpread(img, r1 + r2, f, col, r, c);
    }
  }

  /** Ellipse_fillPoints as written: on rows cy + y and cy - y - 1 the
      columns cx + x … cx - x - 2. */
  function FillPoints(cx: int, cy: int, x: int, y: int, col: Color): (fs: seq<Frag>)
    ensures forall i :: 0 <= i < |fs| ==> fs[i].color == col
    ensures forall r, c :: Hits(fs, r, c) <==> (r == cy + y || r == cy - y - 1) && cx + x <= c < cx - x - 1
  {
    RowPair(cy + y, cy - y - 1, cx + x, cx - x - 1, col)
  }

  /** As for the circle, the span stops one column short on the right: the
      outline pixel at row -2, column 0 of the start state for Ry = 2
      about (0, 0) is drawn but not filled, while its mirror image at
      column -1 is filled. */
  lemma FillPointsMissesOutline(col: Color)
    ensures Hits(PlotPoints(0, 0, -1, -2, col), -2, 0)
    ensures !Hits(FillPoints(0, 0, -1, -2, col), -2, 0)
    ensures Hits(FillPoints(0, 0, -1, -2, col), -2, -1)
  {
    assert PlotPoints(0, 0, -1, -2, col)[1].At(-2, 0);
  }

  /** The span as evidently intended: every column from the left
      reflection to the right reflection inclusive. */
  function FillPointsIntended(cx: int, cy: int, x: int, y: int, col: Color): (fs: seq<Frag>)
    ensures forall i :: 0 <= i < |fs| ==> fs[i].color == col
    ensures forall r, c :: Hits(fs, r, c) <==> (r == cy + y || r == cy - y - 1) && cx + x <= c <= cx - x - 1
  {
    RowPair(cy + y, cy - y - 1, cx + x, cx - x, col)
  }

  /** The intended span is symmetric about the centre column and covers
      the four outline pixels of a point left of the centre. */
  lemma FillPointsIntendedCoversOutline(cx: int, cy: int, x: int, y: int, col: Color, r: int, c: int)
    ensures Hits(FillPointsIntended(cx, cy, x, y, col), r, c)
            <==> Hits(FillPointsIntended(cx, cy, x, y, col), r, 2 * cx - 1 - c)
    ensures x < 0 && Hits(PlotPoints(cx, cy, x, y, col), r, c) ==>
              Hits(FillPointsIntended(cx, cy, x, y, col), r, c)
  {
    if x < 0 && Hits(PlotPoints(cx, cy, x, y, col), r, c) {
      var fs := PlotPoints(cx, cy, x, y, col);
      var i :| 0 <= i < |fs| && fs[i].At(r, c);
    }
  }

  /** Ellipse_drawFill: the same walk as Ellipse_draw, with the span of
      Ellipse_fillPoints between the reflections on each of the two rows
      filled, one column short on the right as written (see
      FillPointsMissesOutline). */
  method DrawFill(img: Image, e: Ellipse, col: Color) returns (img': Image, r1: seq<EMid>, r2: seq<EMid>)
    requires img.Valid()
    ensures IsQuadrant(Trunc(e.ra), Trunc(e.rb), r1, r2)
    ensures img'.Valid() && img'.rows == img.rows && img'.cols == img.cols
    ensures forall r, c :: img.InBounds(r, c) ==>
              GetZ(img', r, c) == GetZ(img, r, c)
              && GetColor(img', r, c)
                 == if exists i :: 0 <= i < |r1 + r2|
                                   && Hits(FillPoints(Trunc(e.c.x), Trunc(e.c.y), (r1 + r2)[i].x, (r1 + r2)[i].y, col), r, c)
                    then col else GetColor(img, r, c)
  {
    r1, r2 := Quadrant(Trunc(e.ra), Trunc(e.rb));
    var cx, cy := Trunc(e.c.x), Trunc(e.c.y);
    var f := (m: EMid) => FillPoints(cx, cy, m.x, m.y, col);
    img' := Paint(img, Spread(r1 + r2, f));
    forall r, c | img.InBounds(r, c)
      ensures GetZ(img', r, c) == GetZ(img, r, c)
      ensures GetColor(img', r, c)
              == if exists i :: 0 <= i < |r1 + r2| && Hits(f((r1 + r2)[i]), r, c) then col else GetColor(img, r, c)
    {
      PaintSpread(img, r1 + r2, f, col, r, c);
    }
  }

  /** Ellipse_drawFill with the span as intended. */
  method DrawFillIntended(img: Image, e: Ellipse, col: Color) returns (img': Image, r1: seq<EMid>, r2: seq<EMid>)
    requires img.Valid()
    ensures IsQuadrant(Trunc(e.ra), Trunc(e.rb), r1, r2)
    ensures img'.Valid() && img'.rows == img.rows && img'.cols == img.cols
    ensures forall r, c :: img.InBounds(r, c) ==>
              GetZ(img', r, c) == GetZ(img, r, c)
              && GetColor(img', r, c)
                 == if exists i :: 0 <= i < |r1 + r2|
                                   && Hits(FillPointsIntended(Trunc(e.c.x), Trunc(e.c.y), (r1 + r2)[i].x, (r1 + r2)[i].y, col), r, c)
                    then col else GetColor(img, r, c)
  {
    r1, r2 := Quadrant(Trunc(e.ra), Trunc(e.rb));
    var cx, cy := Trunc(e.c.x), Trunc(e.c.y);
    var f := (m: EMid) => FillPointsIntended(cx, cy, m.x, m.y, col);
    img' := Paint(img, Spread(r1 + r2, f));
    forall r, c | img.InBounds(r, c)
      ensures GetZ(img', r, c) == GetZ(img, r, c)
      ensures GetColor(img', r, c)
              == if exists i :: 0 <= i < |r1 + r2| && Hits(f((r1 + r2)[i]), r, c) then col else GetColor(img, r, c)
    {
      PaintSpread(img, r1 + r2, f, col, r, c);
    }
  }

  /** The span as written is the intended one less its right-most column. */
  lemma FillPointsWithinIntended(cx: int, cy: int, x: int, y: int, col: Color, r: int, c: int)
    ensures Hits(FillPoints(cx, cy, x, y, col), r, c) ==> Hits(FillPointsIntended(cx, cy, x, y, col), r, c)
    ensures Hits(FillPointsIntended(cx, cy, x, y, col), r, c) && !Hits(FillPoints(cx, cy, x, y, col), r, c)
            ==> c == cx - x - 1
  {
  }
}

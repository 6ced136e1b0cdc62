/** The per-row edge table of the scanline fill: makeEdgeRec and
    buildEdgeList (lib/scanlineSkeleton.c:49-343).

    Rows are rounded with (int)(y + 0.5).  A pixel row r is sampled at its
    centre r + 0.5.  An edge joins a lower vertex (smaller y) to an upper
    one; its record is filed in the bucket of its first row and stays
    active up to and including row yUpper. */
module EdgeTable {
  import opened CNum
  import opened Colors
  import opened Geometry
  import opened Edges
  import Polygons

  /** What buildEdgeList gathers for one vertex: its position, colour,
      world normal, world position and texture coordinates, with black,
      zero vectors and (0, 0) standing in for missing arrays. */
  datatype Vert = Vert(v: Point, c: Color, n: Vector, p: Point, s: real, t: real)

  /** The row of a y value: (int)(y + 0.5). */
  function RoundRow(y: real): (r: int)
    ensures y >= 0.0 ==> Trunc(y) <= r <= Trunc(y) + 1
  {
    Trunc(y + 0.5)
  }

  /** C's ceil. */
  function Ceil(y: real): (k: int)
    ensures y <= k as real < y + 1.0
  {
    if y.Floor as real == y then y.Floor else y.Floor + 1
  }

  // ------------------------------------------------- first sample of an edge

  /** How far above y1 makeEdgeRec first samples an edge, as written: the
      test for "y1 in the upper half of its pixel" includes the midpoint
      y1 = k + 0.5 (lib/scanlineSkeleton.c:154-178). */
  function StartOffset(y1: real): (d: real)
    ensures d >= 0.0
  {
    var f := y1.Floor as real;
    if f <= y1 && y1 <= f + 0.5 then f + 0.5 - y1
    else Ceil(y1) as real - y1 + 0.5
  }

  /** The offset that reaches the centre of the edge's first row, the
      midpoint y1 = k + 0.5 belonging to the lower half. */
  function StartOffsetIntended(y1: real): (d: real)
    ensures d >= 0.0
    ensures y1 >= 0.0 ==> y1 + d == RoundRow(y1) as real + 0.5
  {
    var f := y1.Floor as real;
    if y1 < f + 0.5 then f + 0.5 - y1
    else Ceil(y1) as real - y1 + 0.5
  }

  /** As written, an edge starting at y1 = 0.5 is filed in row 1 but
      sampled at height 0.5, the centre of row 0: on every row it is drawn
      with the x of the row before. */
  lemma StartOffsetMissesRow()
    ensures RoundRow(0.5) == 1
    ensures 0.5 + StartOffset(0.5) == 0.5
    ensures 0.5 + StartOffsetIntended(0.5) == 1.5
  {
    assert (0.5).Floor == 0;
    assert (1.0).Floor == 1;
  }

  /** The two agree everywhere except at the midpoints. */
  lemma StartOffsetOnlyMidpointsDiffer(y1: real)
    requires y1 - y1.Floor as real != 0.5
    ensures StartOffset(y1) == StartOffsetIntended(y1)
  {
  }

  // ------------------------------------------------------------ makeEdgeRec

  /** Perspective-correct start value and per-scan step of an attribute
      a1 -> a2: both work on a/z. */
  function Persp(a1: real, a2: real, z1: real, z2: real, dscan: real, off: real): (real, real)
  {
    var d := Quot(Quot(a2, z2) - Quot(a1, z1), dscan);
    (Quot(a1, z1) + off * d, d)
  }

  /** Stepping a/z by the per-scan step for the length of the edge goes
      from a1/z1 to a2/z2. */
  lemma PerspSpansEdge(a1: real, a2: real, z1: real, z2: real, dscan: real, off: real)
    requires z1 != 0.0 && z2 != 0.0 && dscan != 0.0
    ensures var r := Persp(a1, a2, z1, z2, dscan, off);
            && Quot(a1, z1) + dscan * r.1 == Quot(a2, z2)
            && r.0 == Quot(a1, z1) + off * r.1
  {
  }

  /** The value at height y of an attribute that goes linearly from a1 at
      height y1 to a2 at height y2. */
  function Lerp(a1: real, a2: real, y1: real, y2: real, y: real): real
  {
    a1 + (y - y1) * Quot(a2 - a1, y2 - y1)
  }

  /** Lerp passes through both ends of the segment. */
  lemma LerpEnds(a1: real, a2: real, y1: real, y2: real)
    requires y1 != y2
    ensures Lerp(a1, a2, y1, y2, y1) == a1
    ensures Lerp(a1, a2, y1, y2, y2) == a2
  {
    var d := Quot(a2 - a1, y2 - y1);
    assert d * (y2 - y1) == a2 - a1;
  }

  /** k more units of height add k steps of (a2 - a1) / (y2 - y1). */
  lemma LerpStep(a1: real, a2: real, y1: real, y2: real, y: real, k: real)
    ensures Lerp(a1, a2, y1, y2, y) + k * Quot(a2 - a1, y2 - y1) == Lerp(a1, a2, y1, y2, y + k)
  {
    var d := Quot(a2 - a1, y2 - y1);
    assert (y - y1) * d + k * d == (y + k - y1) * d;
  }

  /** An attribute that changes linearly in y along the edge from a1 at y1
      to a2 at y2, sampled `off` above y1: its value there and its step
      per unit of y. */
  function Track(a1: real, a2: real, y1: real, y2: real, off: real): (r: (real, real))
    requires y1 != y2
    ensures r.1 * (y2 - y1) == a2 - a1
    ensures r.0 == Lerp(a1, a2, y1, y2, y1 + off)
    ensures r.1 == Quot(a2 - a1, y2 - y1)
  {
    LerpOffset(a1, a2, y1, y2, off);
    (a1 + off * Quot(a2 - a1, y2 - y1), Quot(a2 - a1, y2 - y1))
  }

  /** Sampling `off` above y1 is adding `off` steps to a1. */
  lemma LerpOffset(a1: real, a2: real, y1: real, y2: real, off: real)
    ensures Lerp(a1, a2, y1, y2, y1 + off) == a1 + off * Quot(a2 - a1, y2 - y1)
  {
    var y := y1 + off;
    assert y - y1 == off;
  }

  /** The attributes interpolated over z along an edge: colour, normal,
      world position, s and t, each a start value and a per-scan step. */
  datatype Interp = Interp(c: Color, dc: Color, n: Vector, dn: Vector, p: Point, dp: Point,
                           s: real, ds: real, t: real, dt: real)

  /** The perspective-correct attributes of the edge lo -> up sampled
      `off` above lo.  The t coordinate is started at its lower-end value
      and then moved by `off` steps of s when `upperHalf` holds, of t
      otherwise (lib/scanlineSkeleton.c:159-176). */
  function Interpolants(lo: Vert, up: Vert, off: real, upperHalf: bool): (a: Interp)
    requires lo.v.y < up.v.y && lo.v.z != 0.0 && up.v.z != 0.0
    ensures Quot(lo.s, lo.v.z) + (up.v.y - lo.v.y) * a.ds == Quot(up.s, up.v.z)
    ensures a.s == Quot(lo.s, lo.v.z) + off * a.ds
    ensures a.t == Quot(lo.t, lo.v.z) + off * (if upperHalf then a.ds else a.dt)
  {
    var b := ShadingAttributes(lo, up, off);
    var st := TexCoords(lo, up, off, upperHalf);
    Interp(b.c, b.dc, b.n, b.dn, b.p, b.dp, st.0, st.1, st.2, st.3)
  }

  /** Colour, normal and world position of Interpolants, each a start
      value over z and its per-scan step; s and t are left at 0. */
  function ShadingAttributes(lo: Vert, up: Vert, off: real): Interp
  {
    var dscan := up.v.y - lo.v.y;
    var z1, z2 := lo.v.z, up.v.z;
    var cr, cg, cb := Persp(lo.c.r, up.c.r, z1, z2, dscan, off), Persp(lo.c.g, up.c.g, z1, z2, dscan, off),
                      Persp(lo.c.b, up.c.b, z1, z2, dscan, off);
    var nx, ny, nz := Persp(lo.n.x, up.n.x, z1, z2, dscan, off), Persp(lo.n.y, up.n.y, z1, z2, dscan, off),
                      Persp(lo.n.z, up.n.z, z1, z2, dscan, off);
    var px, py, pz, pw := Persp(lo.p.x, up.p.x, z1, z2, dscan, off), Persp(lo.p.y, up.p.y, z1, z2, dscan, off),
                          Persp(lo.p.z, up.p.z, z1, z2, dscan, off), Persp(lo.p.w, up.p.w, z1, z2, dscan, off);
    Interp(Color(cr.0, cg.0, cb.0), Color(cr.1, cg.1, cb.1),
           Vec4(nx.0, ny.0, nz.0, 0.0), Vec4(nx.1, ny.1, nz.1, 0.0),
           Vec4(px.0, py.0, pz.0, pw.0), Vec4(px.1, py.1, pz.1, pw.1),
           0.0, 0.0, 0.0, 0.0)
  }

  /** The s and t part of Interpolants: start values and steps of s/z and
      t/z, with t moved by the step of s in the upper-half branch. */
  function TexCoords(lo: Vert, up: Vert, off: real, upperHalf: bool): (r: (real, real, real, real))
    requires lo.v.y < up.v.y && lo.v.z != 0.0 && up.v.z != 0.0
    ensures Quot(lo.s, lo.v.z) + (up.v.y - lo.v.y) * r.1 == Quot(up.s, up.v.z)
    ensures r.0 == Quot(lo.s, lo.v.z) + off * r.1
    ensures r.2 == Quot(lo.t, lo.v.z) + off * (if upperHalf then r.1 else r.3)
  {
    var dscan := up.v.y - lo.v.y;
    var s := Persp(lo.s, up.s, lo.v.z, up.v.z, dscan, off);
    var t := Persp(lo.t, up.t, lo.v.z, up.v.z, dscan, 0.0);
    PerspSpansEdge(lo.s, up.s, lo.v.z, up.v.z, dscan, off);
    PerspSpansEdge(lo.t, up.t, lo.v.z, up.v.z, dscan, 0.0);
    (s.0, s.1, t.0 + off * (if upperHalf then s.1 else t.1), t.1)
  }

  /** The edge record for the segment lo -> up sampled `off` above lo:
      x and 1/z change linearly in y; the other attributes come from
      Interpolants. */
  function EdgeFrom(lo: Vert, up: Vert, yUpper: int, off: real, upperHalf: bool): (e: Edge)
    requires lo.v.y < up.v.y && lo.v.z != 0.0 && up.v.z != 0.0
    ensures e.yUpper == yUpper
    ensures e.dx == Quot(up.v.x - lo.v.x, up.v.y - lo.v.y)
    ensures e.x == Lerp(lo.v.x, up.v.x, lo.v.y, up.v.y, lo.v.y + off)
    ensures e.dz == Quot(Recip(up.v.z) - Recip(lo.v.z), up.v.y - lo.v.y)
    ensures e.z == Lerp(Recip(lo.v.z), Recip(up.v.z), lo.v.y, up.v.y, lo.v.y + off)
  {
    var x := Track(lo.v.x, up.v.x, lo.v.y, up.v.y, off);
    var z := Track(Recip(lo.v.z), Recip(up.v.z), lo.v.y, up.v.y, off);
    var a := Interpolants(lo, up, off, upperHalf);
    Edge(yUpper, x.0, x.1, z.0, z.1, a.c, a.dc, a.n, a.dn, a.p, a.dp, a.s, a.ds, a.t, a.dt)
  }

  /** 1/z, the depth quantity the fill interpolates. */
  function Recip(z: real): real
  {
    Quot(1.0, z)
  }

  /** The first row of a kept edge and its last, yUpper, clipped to the
      image as makeEdgeRec does (the clip never bites: an edge ending at
      or above the last row has RoundRow(y2) - 1 < rows - 1). */
  function EdgeRows(y1: real, y2: real, rows: int): (r: (int, int))
    requires 0.0 <= y1 < y2 <= (rows - 1) as real && RoundRow(y1) != RoundRow(y2)
    ensures r.0 == RoundRow(y1) && r.1 == RoundRow(y2) - 1
    ensures 0 <= r.0 <= r.1 < rows - 1
  {
    (RoundRow(y1), if RoundRow(y2) - 1 > rows - 1 then rows - 1 else RoundRow(y2) - 1)
  }

  /** makeEdgeRec.  Edges that start above the image (y1 < 0) or end below
      its last row are dropped, so the top-clipping code that follows
      (lib/scanlineSkeleton.c:199-224) never runs and is not modelled.  A
      kept edge is filed in row RoundRow(y1) and stays active through
      RoundRow(y2) - 1; x and 1/z start StartOffset(y1) above y1,
      stepping by their change per unit of y.  The t coordinate is stepped
      by the s increment when y1 is in the upper half of its pixel
      (lib/scanlineSkeleton.c:159), a slip kept here. */
  function MakeEdgeRec(lo: Vert, up: Vert, rows: int): (r: Option<(int, Edge)>)
    requires lo.v.y < up.v.y && RoundRow(lo.v.y) != RoundRow(up.v.y)
    requires lo.v.z != 0.0 && up.v.z != 0.0
    ensures r.None? <==> lo.v.y < 0.0 || up.v.y > (rows - 1) as real
    ensures r.Some? ==>
              var (row, e) := r.value;
              && row == RoundRow(lo.v.y) && e.yUpper == RoundRow(up.v.y) - 1
              && 0 <= row <= e.yUpper < rows - 1
  {
    var y1, y2 := lo.v.y, up.v.y;
    if y1 < 0.0 || y2 > (rows - 1) as real then None
    else
      var rs := EdgeRows(y1, y2, rows);
      Some((rs.0, EdgeFrom(lo, up, rs.1, StartOffset(y1), y1 <= y1.Floor as real + 0.5)))
  }

  /** makeEdgeRec with the first sample at the centre of the edge's first
      row (StartOffsetIntended); the midpoint y1 = k + 0.5 takes the lower
      branch, for t as well. */
  function MakeEdgeRecIntended(lo: Vert, up: Vert, rows: int): (r: Option<(int, Edge)>)
    requires lo.v.y < up.v.y && RoundRow(lo.v.y) != RoundRow(up.v.y)
    requires lo.v.z != 0.0 && up.v.z != 0.0
    ensures r.None? <==> lo.v.y < 0.0 || up.v.y > (rows - 1) as real
    ensures r.Some? ==>
              var (row, e) := r.value;
              && row == RoundRow(lo.v.y) && e.yUpper == RoundRow(up.v.y) - 1
              && 0 <= row <= e.yUpper < rows - 1
  {
    var y1, y2 := lo.v.y, up.v.y;
    if y1 < 0.0 || y2 > (rows - 1) as real then None
    else
      var rs := EdgeRows(y1, y2, rows);
      Some((rs.0, EdgeFrom(lo, up, rs.1, StartOffsetIntended(y1), y1 < y1.Floor as real + 0.5)))
  }

  /** The written and the intended records are the same edge unless y1
      is a midpoint k + 0.5. */
  lemma MakeEdgeRecAgrees(lo: Vert, up: Vert, rows: int)
    requires lo.v.y < up.v.y && RoundRow(lo.v.y) != RoundRow(up.v.y)
    requires lo.v.z != 0.0 && up.v.z != 0.0
    requires lo.v.y - lo.v.y.Floor as real != 0.5
    ensures MakeEdgeRec(lo, up, rows) == MakeEdgeRecIntended(lo, up, rows)
  {
    StartOffsetOnlyMidpointsDiffer(lo.v.y);
  }

  /** As written, a y1 that is a midpoint k + 0.5 is sampled at y1
      itself, the centre of the row below the one the edge is filed in. */
  lemma StartOffsetAtMidpoint(y1: real)
    requires y1 >= 0.0 && y1 - y1.Floor as real == 0.5
    ensures y1 + StartOffset(y1) == RoundRow(y1) as real - 0.5
  {
    var f := y1.Floor;
    assert y1 + 0.5 == (f + 1) as real;
    assert ((f + 1) as real).Floor == f + 1;
  }

  /** A kept edge steps x and 1/z by their change per unit of y,
      (x2 - x1) / (y2 - y1) and (1/z2 - 1/z1) / (y2 - y1).  As written it
      starts them at the segment's values at the centre of its first row,
      except when y1 is a midpoint k + 0.5: then they start at the centre
      of the row before, half a row low. */
  lemma MakeEdgeRecSamples(lo: Vert, up: Vert, rows: int, row: int, e: Edge)
    requires lo.v.y < up.v.y && RoundRow(lo.v.y) != RoundRow(up.v.y)
    requires lo.v.z != 0.0 && up.v.z != 0.0
    requires MakeEdgeRec(lo, up, rows) == Some((row, e))
    ensures e.dx == Quot(up.v.x - lo.v.x, up.v.y - lo.v.y)
    ensures e.dz == Quot(Recip(up.v.z) - Recip(lo.v.z), up.v.y - lo.v.y)
    ensures lo.v.y - lo.v.y.Floor as real != 0.5 ==>
              && e.x == Lerp(lo.v.x, up.v.x, lo.v.y, up.v.y, row as real + 0.5)
              && e.z == Lerp(Recip(lo.v.z), Recip(up.v.z), lo.v.y, up.v.y, row as real + 0.5)
    ensures lo.v.y - lo.v.y.Floor as real == 0.5 ==>
              && e.x == Lerp(lo.v.x, up.v.x, lo.v.y, up.v.y, row as real - 0.5)
              && e.z == Lerp(Recip(lo.v.z), Recip(up.v.z), lo.v.y, up.v.y, row as real - 0.5)
  {
    var y1 := lo.v.y;
    var yu, off, b := EdgeRows(y1, up.v.y, rows).1, StartOffset(y1), y1 <= y1.Floor as real + 0.5;
    var e' := EdgeFrom(lo, up, yu, off, b);
    assert MakeEdgeRec(lo, up, rows) == Some((EdgeRows(y1, up.v.y, rows).0, e'));
    if y1 - y1.Floor as real == 0.5 {
      StartOffsetAtMidpoint(y1);
      assert y1 + off == row as real - 0.5;
    } else {
      StartOffsetOnlyMidpointsDiffer(y1);
      assert y1 + off == row as real + 0.5;
    }
  }

  /** The intended record starts x and 1/z at the centre of its first row
      for every y1. */
  lemma MakeEdgeRecIntendedSamples(lo: Vert, up: Vert, rows: int, row: int, e: Edge)
    requires lo.v.y < up.v.y && RoundRow(lo.v.y) != RoundRow(up.v.y)
    requires lo.v.z != 0.0 && up.v.z != 0.0
    requires MakeEdgeRecIntended(lo, up, rows) == Some((row, e))
    ensures e.dx == Quot(up.v.x - lo.v.x, up.v.y - lo.v.y)
    ensures e.dz == Quot(Recip(up.v.z) - Recip(lo.v.z), up.v.y - lo.v.y)
    ensures e.x == Lerp(lo.v.x, up.v.x, lo.v.y, up.v.y, row as real + 0.5)
    ensures e.z == Lerp(Recip(lo.v.z), Recip(up.v.z), lo.v.y, up.v.y, row as real + 0.5)
  {
    var y1 := lo.v.y;
    var yu, off, b := EdgeRows(y1, up.v.y, rows).1, StartOffsetIntended(y1), y1 < y1.Floor as real + 0.5;
    var e' := EdgeFrom(lo, up, yu, off, b);
    assert MakeEdgeRecIntended(lo, up, rows) == Some((EdgeRows(y1, up.v.y, rows).0, e'));
    assert y1 + off == row as real + 0.5;
  }

  /** After k scanlines a kept edge holds the x and 1/z of its segment at
      the centre of row row + k, or, as written, of row row + k - 1 when
      y1 is a midpoint k + 0.5. */
  lemma EdgeSamplesRowCentres(lo: Vert, up: Vert, rows: int, row: int, e: Edge, k: nat)
    requires lo.v.y < up.v.y && RoundRow(lo.v.y) != RoundRow(up.v.y)
    requires lo.v.z != 0.0 && up.v.z != 0.0
    requires MakeEdgeRec(lo, up, rows) == Some((row, e))
    ensures lo.v.y - lo.v.y.Floor as real != 0.5 ==>
              && AdvanceTimes(e, k).x == Lerp(lo.v.x, up.v.x, lo.v.y, up.v.y, (row + k) as real + 0.5)
              && AdvanceTimes(e, k).z == Lerp(Recip(lo.v.z), Recip(up.v.z), lo.v.y, up.v.y, (row + k) as real + 0.5)
    ensures lo.v.y - lo.v.y.Floor as real == 0.5 ==>
              && AdvanceTimes(e, k).x == Lerp(lo.v.x, up.v.x, lo.v.y, up.v.y, (row + k) as real - 0.5)
              && AdvanceTimes(e, k).z == Lerp(Recip(lo.v.z), Recip(up.v.z), lo.v.y, up.v.y, (row + k) as real - 0.5)
  {
    MakeEdgeRecSamples(lo, up, rows, row, e);
    var h := if lo.v.y - lo.v.y.Floor as real == 0.5 then row as real - 0.5 else row as real + 0.5;
    SampleAlong(e, k, lo.v.x, up.v.x, Recip(lo.v.z), Recip(up.v.z), lo.v.y, up.v.y, h);
    assert (row + k) as real + 0.5 == row as real + 0.5 + k as real;
    assert (row + k) as real - 0.5 == row as real - 0.5 + k as real;
  }

  /** An edge whose x and 1/z sit on the segment at height y0 and step by
      the segment's slopes holds the segment's values at y0 + k after k
      advances. */
  lemma SampleAlong(e: Edge, k: nat, x1: real, x2: real, z1: real, z2: real, y1: real, y2: real, y0: real)
    requires e.dx == Quot(x2 - x1, y2 - y1) && e.x == Lerp(x1, x2, y1, y2, y0)
    requires e.dz == Quot(z2 - z1, y2 - y1) && e.z == Lerp(z1, z2, y1, y2, y0)
    ensures AdvanceTimes(e, k).x == Lerp(x1, x2, y1, y2, y0 + k as real)
    ensures AdvanceTimes(e, k).z == Lerp(z1, z2, y1, y2, y0 + k as real)
  {
    AdvanceTimesDepth(e, k);
    LerpStep(x1, x2, y1, y2, y0, k as real);
    LerpStep(z1, z2, y1, y2, y0, k as real);
  }

  // ---------------------------------------------------------- buildEdgeList

  /** Every optional per-vertex array buildEdgeList reads covers the
      vertices, and no vertex has depth 0 (1/z would be infinite). */
  predicate Fillable(p: Polygons.Polygon)
  {
    && |p.vertex| >= 1
    && (p.color.Some? ==> |p.color.value| >= |p.vertex|)
    && (p.wNormal.Some? ==> |p.wNormal.value| >= |p.vertex|)
    && (p.wVertex.Some? ==> |p.wVertex.value| >= |p.vertex|)
    && (p.texCoord.Some? ==> |p.texCoord.value| >= |p.vertex|)
    && (forall i :: 0 <= i < |p.vertex| ==> p.vertex[i].z != 0.0)
  }

  /** The attributes of vertex i. */
  function Vtx(p: Polygons.Polygon, i: int): (a: Vert)
    requires Fillable(p) && 0 <= i < |p.vertex|
    ensures a.v == p.vertex[i]
  {
    Vert(p.vertex[i],
         if p.color.Some? then p.color.value[i] else Black,
         if p.wNormal.Some? then p.wNormal.value[i] else Vec4(0.0, 0.0, 0.0, 0.0),
         if p.wVertex.Some? then p.wVertex.value[i] else Vec4(0.0, 0.0, 0.0, 0.0),
         if p.texCoord.Some? then p.texCoord.value[i].s else 0.0,
         if p.texCoord.Some? then p.texCoord.value[i].t else 0.0)
  }

  /** The vertex before i, the last one before the first. */
  function Prev(n: int, i: int): int
  {
    if i == 0 then n - 1 else i - 1
  }

  function MinY(a: real, b: real): real { if a < b then a else b }
  function MaxY(a: real, b: real): real { if a < b then b else a }

  /** Iteration i of buildEdgeList, on the segment from vertex Prev(i) to
      vertex i: no edge when both ends round to the same row, otherwise
      the edge from the lower end to the upper, unless makeEdgeRec drops
      it. */
  function PairRec(p: Polygons.Polygon, i: int, rows: int): (r: Option<(int, Edge)>)
    requires Fillable(p) && 0 <= i < |p.vertex|
    ensures var (a, b) := (p.vertex[Prev(|p.vertex|, i)].y, p.vertex[i].y);
            r.None? <==> RoundRow(a) == RoundRow(b) || MinY(a, b) < 0.0 || MaxY(a, b) > (rows - 1) as real
    ensures var (a, b) := (p.vertex[Prev(|p.vertex|, i)].y, p.vertex[i].y);
            r.Some? ==>
              var (row, e) := r.value;
              && MinY(a, b) < MaxY(a, b)
              && row == RoundRow(MinY(a, b)) && e.yUpper == RoundRow(MaxY(a, b)) - 1
              && 0 <= row <= e.yUpper < rows - 1
  {
    var a, b := Vtx(p, Prev(|p.vertex|, i)), Vtx(p, i);
    if RoundRow(a.v.y) == RoundRow(b.v.y) then None
    else if a.v.y < b.v.y then MakeEdgeRec(a, b, rows)
    else MakeEdgeRec(b, a, rows)
  }

  /** The edges of iterations [0, k) that start in row `row`, in order. */
  function RowEdges(p: Polygons.Polygon, rows: int, k: int, row: int): seq<Edge>
    requires Fillable(p) && 0 <= k <= |p.vertex|
  {
    if k == 0 then []
    else
      var r := PairRec(p, k - 1, rows);
      RowEdges(p, rows, k - 1, row) + (if r.Some? && r.value.0 == row then [r.value.1] else [])
  }

  /** The buckets after iterations [0, k) of buildEdgeList: each kept edge
      inserted into the sorted list of its first row. */
  function Table(p: Polygons.Polygon, rows: int, k: int): (bs: seq<seq<Edge>>)
    requires Fillable(p) && 0 <= k <= |p.vertex| && rows >= 0
    ensures |bs| == rows
  {
    if k == 0 then seq(rows, _ => [])
    else
      var bs := Table(p, rows, k - 1);
      match PairRec(p, k - 1, rows)
      case None => bs
      case Some((row, e)) => bs[row := Insert(bs[row], e)]
  }

  /** Each bucket is sorted and holds exactly the kept edges that start in
      its row. */
  lemma {:induction false} TableBuckets(p: Polygons.Polygon, rows: int, k: int)
    requires Fillable(p) && 0 <= k <= |p.vertex| && rows >= 0
    ensures forall row :: 0 <= row < rows ==>
              && Sorted(Table(p, rows, k)[row])
              && multiset(Table(p, rows, k)[row]) == multiset(RowEdges(p, rows, k, row))
  {
    if k > 0 {
      TableBuckets(p, rows, k - 1);
      var bs, r := Table(p, rows, k - 1), PairRec(p, k - 1, rows);
      var t := Table(p, rows, k);
      assert r.None? ==> t == bs;
      assert r.Some? ==> t == bs[r.value.0 := Insert(bs[r.value.0], r.value.1)];
      forall row | 0 <= row < rows
        ensures Sorted(t[row]) && multiset(t[row]) == multiset(RowEdges(p, rows, k, row))
      {
        var added := if r.Some? && r.value.0 == row then [r.value.1] else [];
        assert RowEdges(p, rows, k, row) == RowEdges(p, rows, k - 1, row) + added;
        if r.Some? && r.value.0 == row {
          InsertKeepsSorted(bs[row], r.value.1);
        }
      }
    }
  }

  // ----------------------------------------------------------- scan range

  /** The smallest (int)y over the last vertex and vertices [0, k). */
  function MinRow(p: Polygons.Polygon, k: int): (m: int)
    requires 1 <= |p.vertex| && 0 <= k <= |p.vertex|
    ensures m <= Trunc(p.vertex[|p.vertex| - 1].y)
    ensures forall j :: 0 <= j < k ==> m <= Trunc(p.vertex[j].y)
  {
    if k == 0 then Trunc(p.vertex[|p.vertex| - 1].y)
    else
      var m := MinRow(p, k - 1);
      var t := Trunc(p.vertex[k - 1].y);
      if t < m then t else m
  }

  /** The row bound of buildEdgeList as written: the last vertex counts
      with (int)y + 1, every vertex in the loop with (int)y
      (lib/scanlineSkeleton.c:288, 317). */
  function MaxRowAsWritten(p: Polygons.Polygon, k: int): (m: int)
    requires 1 <= |p.vertex| && 0 <= k <= |p.vertex|
    ensures m >= Trunc(p.vertex[|p.vertex| - 1].y) + 1
    ensures forall j :: 0 <= j < k ==> m >= Trunc(p.vertex[j].y)
  {
    if k == 0 then Trunc(p.vertex[|p.vertex| - 1].y) + 1
    else
      var m := MaxRowAsWritten(p, k - 1);
      var t := Trunc(p.vertex[k - 1].y);
      if t > m then t else m
  }

  /** The row bound with every vertex counted as (int)y + 1, as the
      initial value does. */
  function MaxRowIntended(p: Polygons.Polygon, k: int): (m: int)
    requires 1 <= |p.vertex| && 0 <= k <= |p.vertex|
    ensures forall j :: 0 <= j < k ==> m >= Trunc(p.vertex[j].y) + 1
  {
    if k == 0 then Trunc(p.vertex[|p.vertex| - 1].y) + 1
    else
      var m := MaxRowIntended(p, k - 1);
      var t := Trunc(p.vertex[k - 1].y) + 1;
      if t > m then t else m
  }

  /** The clipping at the end of buildEdgeList: the scan loop of
      Polygon_drawFill runs from lo up to but excluding hi. */
  function ClipRows(mn: int, mx: int, rows: int): (r: (int, int))
    ensures r.0 >= 0 && r.0 >= mn
    ensures r.1 <= mx && (mx >= rows ==> r.1 == rows - 1)
    ensures r.1 < rows
  {
    (if mn < 0 then 0 else mn, if mx >= rows then rows - 1 else mx)
  }

  /** The bounds of buildEdgeList as written: Polygon_drawFill scans the
      rows from r.0 up to but excluding r.1. */
  function ScanRangeAsWritten(p: Polygons.Polygon, rows: int): (r: (int, int))
    requires 1 <= |p.vertex|
    ensures 0 <= r.0 && r.1 < rows
    ensures forall j :: 0 <= j < |p.vertex| ==> r.0 <= Trunc(p.vertex[j].y) || r.0 == 0
  {
    ClipRows(MinRow(p, |p.vertex|), MaxRowAsWritten(p, |p.vertex|), rows)
  }

  /** The bounds with the corrected maximum. */
  function ScanRange(p: Polygons.Polygon, rows: int): (r: (int, int))
    requires 1 <= |p.vertex|
    ensures 0 <= r.0 && r.1 < rows
  {
    ClipRows(MinRow(p, |p.vertex|), MaxRowIntended(p, |p.vertex|), rows)
  }

  /** The written maximum never exceeds the corrected one. */
  lemma {:induction false} MaxRowAsWrittenBelow(p: Polygons.Polygon, k: int)
    requires 1 <= |p.vertex| && 0 <= k <= |p.vertex|
    ensures MaxRowAsWritten(p, k) <= MaxRowIntended(p, k)
  {
    if k > 0 {
      MaxRowAsWrittenBelow(p, k - 1);
    }
  }

  /** The scan as written starts where the corrected scan does and stops
      no later: it visits a subset of the corrected rows. */
  lemma ScanRangeAsWrittenWithin(p: Polygons.Polygon, rows: int)
    requires 1 <= |p.vertex|
    ensures ScanRangeAsWritten(p, rows).0 == ScanRange(p, rows).0
    ensures ScanRangeAsWritten(p, rows).1 <= ScanRange(p, rows).1
  {
    MaxRowAsWrittenBelow(p, |p.vertex|);
  }

  /** With the corrected bounds the scan loop visits every row on which
      some kept edge is active. */
  lemma ScanRangeCoversEdges(p: Polygons.Polygon, rows: int, i: int)
    requires Fillable(p) && 0 <= i < |p.vertex|
    requires PairRec(p, i, rows).Some?
    ensures var (row, e) := PairRec(p, i, rows).value;
            ScanRange(p, rows).0 <= row && e.yUpper < ScanRange(p, rows).1
  {
    var n := |p.vertex|;
    var a, b := p.vertex[Prev(n, i)].y, p.vertex[i].y;
    var lo, hi := MinY(a, b), MaxY(a, b);
    var (row, e) := PairRec(p, i, rows).value;
    assert Trunc(lo) >= MinRow(p, n) by {
      if Prev(n, i) == n - 1 {
        assert MinRow(p, n) <= Trunc(p.vertex[n - 1].y);
      }
    }
    assert Trunc(hi) + 1 <= MaxRowIntended(p, n);
  }

  /** A rectangle whose last vertex is on its lower side: rows 0 to 5 are
      on its left edge, but the loop bound as written stops the scan
      before row 5.  Listing the same vertices starting one place later
      makes the bound 6: which rows are filled depends on where the list
      starts. */
  function Rectangle(): (p: Polygons.Polygon)
    ensures Fillable(p)
  {
    Polygons.Polygon(1, 0, [Vec4(10.0, 5.7, 1.0, 1.0), Vec4(0.0, 5.7, 1.0, 1.0),
                            Vec4(0.0, 0.2, 1.0, 1.0), Vec4(10.0, 0.2, 1.0, 1.0)],
                     None, None, None, None, None)
  }

  lemma ScanRangeAsWrittenMissesRow()
    ensures PairRec(Rectangle(), 2, 10).Some?
    ensures PairRec(Rectangle(), 2, 10).value.0 == 0 && PairRec(Rectangle(), 2, 10).value.1.yUpper == 5
    ensures ScanRangeAsWritten(Rectangle(), 10) == (0, 5)
    ensures ScanRange(Rectangle(), 10) == (0, 6)
  {
    var p := Rectangle();
    assert (5.7).Floor == 5 && (6.2).Floor == 6 && (0.2).Floor == 0 && (0.7).Floor == 0;
    assert RoundRow(5.7) == 6 && RoundRow(0.2) == 0;
    assert Trunc(5.7) == 5 && Trunc(0.2) == 0;
    assert MinRow(p, 0) == 0 && MinRow(p, 1) == 0 && MinRow(p, 2) == 0 && MinRow(p, 3) == 0 && MinRow(p, 4) == 0;
    assert MaxRowAsWritten(p, 0) == 1 && MaxRowAsWritten(p, 1) == 5 && MaxRowAsWritten(p, 2) == 5;
    assert MaxRowAsWritten(p, 3) == 5 && MaxRowAsWritten(p, 4) == 5;
    assert MaxRowIntended(p, 0) == 1 && MaxRowIntended(p, 1) == 6 && MaxRowIntended(p, 2) == 6;
    assert MaxRowIntended(p, 3) == 6 && MaxRowIntended(p, 4) == 6;
  }
}

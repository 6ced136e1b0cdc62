/** Polylines (lib/polyline.c): an open chain of vertices.  The vertex
    array is a sequence whose length is numVertex. */
module Polylines {
  import opened Geometry
  import Lines

  datatype Polyline = Polyline(zBuffer: int, vertex: seq<Point>)

  /** Polyline_create and Polyline_setNULL: no vertices.  The z-buffer
      flag is not set by either; the model keeps the argument's. */
  function SetNULL(p: Polyline): (r: Polyline)
    ensures r.vertex == [] && r.zBuffer == p.zBuffer
  {
    p.(vertex := [])
  }

  /** Polyline_init and Polyline_set: the first numV points of vlist. */
  function Set(p: Polyline, numV: int, vlist: seq<Point>): (r: Polyline)
    requires 0 <= numV <= |vlist|
    ensures |r.vertex| == numV && forall i :: 0 <= i < numV ==> r.vertex[i] == vlist[i]
    ensures r.zBuffer == p.zBuffer
  {
    p.(vertex := vlist[..numV])
  }

  /** Polyline_clear: no vertices. */
  function Clear(p: Polyline): (r: Polyline)
    ensures r.vertex == [] && r.zBuffer == p.zBuffer
  {
    p.(vertex := [])
  }

  /** Polyline_copy: only the vertices are copied; the destination keeps
      its own z-buffer flag. */
  function Copy(to: Polyline, from: Polyline): (r: Polyline)
    ensures r.vertex == from.vertex && r.zBuffer == to.zBuffer
  {
    Set(Clear(to), |from.vertex|, from.vertex)
  }

  /** Polyline_zBuffer. */
  function SetZBuffer(p: Polyline, flag: int): (r: Polyline)
    ensures r.zBuffer == flag && r.vertex == p.vertex
  {
    p.(zBuffer := flag)
  }

  /** Polyline_normalize: x and y of every vertex divided by w, w set to 1. */
  function Normalize(p: Polyline): (r: Polyline)
    ensures |r.vertex| == |p.vertex| && r.zBuffer == p.zBuffer
    ensures forall i :: 0 <= i < |p.vertex| ==>
              r.vertex[i].w == 1.0 && r.vertex[i].z == p.vertex[i].z
              && (p.vertex[i].w != 0.0 ==>
                    r.vertex[i].x * p.vertex[i].w == p.vertex[i].x
                    && r.vertex[i].y * p.vertex[i].w == p.vertex[i].y)
  {
    p.(vertex := seq(|p.vertex|, i requires 0 <= i < |p.vertex| => PointNormalize(p.vertex[i])))
  }

  /** Normalising a second time changes nothing. */
  lemma NormalizeIdempotent(p: Polyline)
    ensures Normalize(Normalize(p)) == Normalize(p)
  {
    var q := Normalize(p);
    forall i | 0 <= i < |q.vertex|
      ensures PointNormalize(q.vertex[i]) == q.vertex[i]
    {
      PointNormalizeIdempotent(p.vertex[i]);
    }
  }

  /** The lines Polyline_drawFrame draws, in order: one per consecutive
      pair of vertices, built by Line_set from the 2D projections, so each
      carries z-buffer flag 1 whatever the polyline's own flag.  There is
      no closing segment. */
  function Frame(p: Polyline): (segs: seq<Lines.Line>)
    ensures |segs| == if |p.vertex| == 0 then 0 else |p.vertex| - 1
    ensures forall i :: 0 <= i < |segs| ==>
              segs[i] == Lines.Line(1, PointSet2D(p.vertex[i].x, p.vertex[i].y),
                                       PointSet2D(p.vertex[i + 1].x, p.vertex[i + 1].y))
  {
    var n := |p.vertex|;
    if n == 0 then []
    else seq(n - 1, i requires 0 <= i < n - 1 =>
               Lines.LineSet(PointSet2D(p.vertex[i].x, p.vertex[i].y),
                             PointSet2D(p.vertex[i + 1].x, p.vertex[i + 1].y)))
  }

  /** The frame is a chain: each segment starts where the previous ends. */
  lemma FrameChained(p: Polyline, i: int)
    requires 0 < i < |Frame(p)|
    ensures Frame(p)[i].a == Frame(p)[i - 1].b
  {
  }

  /** Appending a vertex appends exactly one segment to the frame. */
  lemma FrameExtend(p: Polyline, v: Point)
    requires |p.vertex| >= 1
    ensures Frame(p.(vertex := p.vertex + [v]))
            == Frame(p) + [Lines.LineSet(PointSet2D(p.vertex[|p.vertex| - 1].x, p.vertex[|p.vertex| - 1].y),
                                         PointSet2D(v.x, v.y))]
  {
    var q := p.(vertex := p.vertex + [v]);
    assert |Frame(q)| == |Frame(p)| + 1;
    forall i | 0 <= i < |Frame(p)|
      ensures Frame(q)[i] == Frame(p)[i]
    {
      assert q.vertex[i] == p.vertex[i] && q.vertex[i + 1] == p.vertex[i + 1];
    }
  }
}

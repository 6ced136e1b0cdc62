/** Polygons (lib/polygon.c, include/cb_polygon.h).

    The C keeps a vertex count and parallel arrays.  Here the vertex
    array is a sequence whose length is nVertex; each of the optional
    arrays is `None` when its pointer is NULL.  The `tex` pointer of the
    struct is only touched by commented-out code and is not modelled. */
module Polygons {
  import opened CNum
  import opened Colors
  import opened Geometry
  import opened Images
  import Lighting
  import DrawStates
  import Lines

  datatype Polygon = Polygon(
    zBuffer: int,
    oneSided: int,
    vertex: seq<Point>,
    normal: Option<seq<Vector>>,
    color: Option<seq<Color>>,
    wVertex: Option<seq<Point>>,
    wNormal: Option<seq<Vector>>,
    texCoord: Option<seq<DrawStates.TexCoord>>)

  /** Polygon_setNULL: no vertices, every array NULL, two-sided, z-buffer on. */
  function SetNULL(): (p: Polygon)
    ensures p.vertex == [] && p.oneSided == 0 && p.zBuffer == 1
    ensures p.normal.None? && p.color.None? && p.texCoord.None?
    ensures p.wVertex.None? && p.wNormal.None?
  {
    Polygon(1, 0, [], None, None, None, None, None)
  }

  /** Polygon_create: as Polygon_setNULL, except that wVertex and wNormal
      are left uninitialised (the model's NULLs there are not promised). */
  function Create(): (p: Polygon)
    ensures p.vertex == [] && p.oneSided == 0 && p.zBuffer == 1
    ensures p.normal.None? && p.color.None? && p.texCoord.None?
  {
    Polygon(1, 0, [], None, None, None, None, None)
  }

  /** Polygon_set: the first numV points of vlist become the vertices. */
  function Set(p: Polygon, numV: int, vlist: seq<Point>): (r: Polygon)
    requires 0 <= numV <= |vlist|
    ensures |r.vertex| == numV && forall i :: 0 <= i < numV ==> r.vertex[i] == vlist[i]
    ensures r.(vertex := p.vertex) == p
  {
    p.(vertex := vlist[..numV])
  }

  /** Polygon_zBuffer. */
  function SetZBuffer(p: Polygon, flag: int): (r: Polygon)
    ensures r.zBuffer == flag && r.(zBuffer := p.zBuffer) == p
  {
    p.(zBuffer := flag)
  }

  /** Polygon_clear: no vertices, vertex/normal/colour NULL, two-sided,
      z-buffer on.  The texture-coordinate array is freed but its pointer
      is not reset, and wVertex/wNormal are not touched: those three keep
      their old values. */
  function Clear(p: Polygon): (r: Polygon)
    ensures r.vertex == [] && r.normal.None? && r.color.None?
    ensures r.oneSided == 0 && r.zBuffer == 1
    ensures r.texCoord == p.texCoord && r.wVertex == p.wVertex && r.wNormal == p.wNormal
  {
    Polygon(1, 0, [], None, None, p.wVertex, p.wNormal, p.texCoord)
  }

  /** Every optional array the source has holds at least nVertex entries. */
  predicate ArraysCover(p: Polygon)
  {
    && (p.normal.Some? ==> |p.normal.value| >= |p.vertex|)
    && (p.color.Some? ==> |p.color.value| >= |p.vertex|)
    && (p.texCoord.Some? ==> |p.texCoord.value| >= |p.vertex|)
  }

  /** Polygon_copy.  The destination is cleared only when it has vertices;
      then vertices, zBuffer and oneSided are copied, and each of normal,
      colour and texture coordinates is copied (nVertex entries) exactly
      when the source has it; otherwise the destination keeps what it had
      after the conditional clear. */
  function Copy(to: Polygon, from: Polygon): (r: Polygon)
    requires ArraysCover(from)
    ensures r.vertex == from.vertex && r.zBuffer == from.zBuffer && r.oneSided == from.oneSided
    ensures from.normal.Some? ==> r.normal == Some(from.normal.value[..|from.vertex|])
    ensures from.color.Some? ==> r.color == Some(from.color.value[..|from.vertex|])
    ensures from.texCoord.Some? ==> r.texCoord == Some(from.texCoord.value[..|from.vertex|])
    ensures from.normal.None? ==> r.normal == if |to.vertex| != 0 then None else to.normal
    ensures from.color.None? ==> r.color == if |to.vertex| != 0 then None else to.color
    ensures from.texCoord.None? ==> r.texCoord == to.texCoord
    ensures r.wVertex == to.wVertex && r.wNormal == to.wNormal
  {
    var t := if |to.vertex| != 0 then Clear(to) else to;
    var n := |from.vertex|;
    Polygon(
      from.zBuffer, from.oneSided, from.vertex,
      if from.normal.Some? then Some(from.normal.value[..n]) else t.normal,
      if from.color.Some? then Some(from.color.value[..n]) else t.color,
      t.wVertex, t.wNormal,
      if from.texCoord.Some? then Some(from.texCoord.value[..n]) else t.texCoord)
  }

  /** Copying a polygon that has all three arrays gives the same polygon,
      apart from the destination's world arrays, whatever the destination. */
  lemma CopyFull(to: Polygon, from: Polygon)
    requires from.normal.Some? && from.color.Some? && from.texCoord.Some?
    requires |from.normal.value| == |from.color.value| == |from.texCoord.value| == |from.vertex|
    ensures Copy(to, from) == from.(wVertex := to.wVertex, wNormal := to.wNormal)
  {
    assert from.normal.value[..|from.vertex|] == from.normal.value;
    assert from.color.value[..|from.vertex|] == from.color.value;
    assert from.texCoord.value[..|from.vertex|] == from.texCoord.value;
  }

  /** Polygon_normalize: every vertex's x and y divided by its w, w set
      to 1, z untouched. */
  function Normalize(p: Polygon): (r: Polygon)
    ensures |r.vertex| == |p.vertex|
    ensures forall i :: 0 <= i < |p.vertex| ==>
              r.vertex[i].w == 1.0 && r.vertex[i].z == p.vertex[i].z
              && (p.vertex[i].w != 0.0 ==>
                    r.vertex[i].x * p.vertex[i].w == p.vertex[i].x
                    && r.vertex[i].y * p.vertex[i].w == p.vertex[i].y)
    ensures r.(vertex := p.vertex) == p
  {
    p.(vertex := seq(|p.vertex|, i requires 0 <= i < |p.vertex| => PointNormalize(p.vertex[i])))
  }

  /** Normalising a second time changes nothing. */
  lemma NormalizeIdempotent(p: Polygon)
    ensures Normalize(Normalize(p)) == Normalize(p)
  {
    var q := Normalize(p);
    forall i | 0 <= i < |q.vertex|
      ensures PointNormalize(q.vertex[i]) == q.vertex[i]
    {
      PointNormalizeIdempotent(p.vertex[i]);
    }
  }

  /** Polygon_setColors: the first numV colours of clist. */
  function SetColors(p: Polygon, numV: int, clist: seq<Color>): (r: Polygon)
    requires 0 <= numV <= |clist|
    ensures r.color.Some? && |r.color.value| == numV
    ensures forall i :: 0 <= i < numV ==> r.color.value[i] == clist[i]
    ensures r.(color := p.color) == p
  {
    p.(color := Some(clist[..numV]))
  }

  /** Polygon_setNormals: the first numV vectors of nlist. */
  function SetNormals(p: Polygon, numV: int, nlist: seq<Vector>): (r: Polygon)
    requires 0 <= numV <= |nlist|
    ensures r.normal.Some? && |r.normal.value| == numV
    ensures forall i :: 0 <= i < numV ==> r.normal.value[i] == nlist[i]
    ensures r.(normal := p.normal) == p
  {
    p.(normal := Some(nlist[..numV]))
  }

  /** Polygon_setTexture: the first numV texture coordinates of texList. */
  function SetTexture(p: Polygon, numV: int, texList: seq<DrawStates.TexCoord>): (r: Polygon)
    requires 0 <= numV <= |texList|
    ensures r.texCoord.Some? && |r.texCoord.value| == numV
    ensures forall i :: 0 <= i < numV ==> r.texCoord.value[i] == texList[i]
    ensures r.(texCoord := p.texCoord) == p
  {
    p.(texCoord := Some(texList[..numV]))
  }

  /** Polygon_setAll: set, setColors, setNormals, setTexture, then the two
      flags. */
  function SetAll(p: Polygon, numV: int, vlist: seq<Point>, clist: seq<Color>, nlist: seq<Vector>,
                  zBuffer: int, oneSided: int, texList: seq<DrawStates.TexCoord>): (r: Polygon)
    requires 0 <= numV <= |vlist| && numV <= |clist| && numV <= |nlist| && numV <= |texList|
    ensures r.zBuffer == zBuffer && r.oneSided == oneSided
    ensures r.vertex == vlist[..numV] && r.color == Some(clist[..numV])
    ensures r.normal == Some(nlist[..numV]) && r.texCoord == Some(texList[..numV])
    ensures r.wVertex == p.wVertex && r.wNormal == p.wNormal
    ensures ArraysCover(r)
  {
    var q := SetTexture(SetNormals(SetColors(Set(p, numV, vlist), numV, clist), numV, nlist), numV, texList);
    q.(zBuffer := zBuffer, oneSided := oneSided)
  }

  /** Polygon_calculateNormals: numV copies of (v0 - v1) × (v1 - v2) with
      w = 0, a vector orthogonal to both edges. */
  function CalculateNormals(p: Polygon, numV: int): (r: Polygon)
    requires |p.vertex| >= 3 && numV >= 0
    ensures r.normal.Some? && |r.normal.value| == numV
    ensures forall i :: 0 <= i < numV ==>
              var n, v := r.normal.value[i], p.vertex;
              && n == Cross(Edge(v[0], v[1]), Edge(v[1], v[2]), 0.0)
              && Dot(n, Edge(v[0], v[1])) == 0.0
              && Dot(n, Edge(v[1], v[2])) == 0.0
    ensures forall i, j :: 0 <= i < numV && 0 <= j < numV ==> r.normal.value[i] == r.normal.value[j]
    ensures r.(normal := p.normal) == p
  {
    var v := p.vertex;
    var n := Cross(Edge(v[0], v[1]), Edge(v[1], v[2]), 0.0);
    p.(normal := Some(seq(numV, i => n)))
  }

  /** The normal Polygon_calculateNormals computes has squared length
      |e1|²|e2|² - (e1·e2)² for the two edges e1 = v0 - v1 and
      e2 = v1 - v2: it is the zero vector exactly when the edges are
      parallel, and a non-zero normal of the plane of the first three
      vertices otherwise. */
  lemma CalculatedNormalLength(p: Polygon, numV: int, i: int)
    requires |p.vertex| >= 3 && 0 <= i < numV
    ensures var e1, e2 := Edge(p.vertex[0], p.vertex[1]), Edge(p.vertex[1], p.vertex[2]);
            LenSquared(CalculateNormals(p, numV).normal.value[i])
            == LenSquared(e1) * LenSquared(e2) - Dot(e1, e2) * Dot(e1, e2)
  {
    CrossLagrange(Edge(p.vertex[0], p.vertex[1]), Edge(p.vertex[1], p.vertex[2]), 0.0);
  }

  /** The vector from b to a, with w = 0. */
  function Edge(a: Point, b: Point): Vector
  {
    Vec4(a.x - b.x, a.y - b.y, a.z - b.z, 0.0)
  }

  /** Polygon_setWorld: wNormal and wVertex become element-wise copies of
      the first numV normals and vertices. */
  function SetWorld(p: Polygon, numV: int): (r: Polygon)
    requires p.normal.Some? && 0 <= numV <= |p.normal.value| && numV <= |p.vertex|
    ensures r.wNormal.Some? && r.wVertex.Some?
    ensures |r.wNormal.value| == numV && |r.wVertex.value| == numV
    ensures forall i :: 0 <= i < numV ==>
              r.wNormal.value[i] == p.normal.value[i] && r.wVertex.value[i] == p.vertex[i]
    ensures r.(wNormal := p.wNormal, wVertex := p.wVertex) == p
  {
    p.(wNormal := Some(p.normal.value[..numV]), wVertex := Some(p.vertex[..numV]))
  }

  // -------------------------------------------------------------- shading

  /** Sharpness passed to Lighting_shading by Polygon_shade. */
  const Sharpness := 32.0

  /** The view vector viewer - v (its w is never read). */
  function ViewVector(viewer: Point, v: Point): Vector
  {
    Vec4(-v.x + viewer.x, -v.y + viewer.y, -v.z + viewer.z, 0.0)
  }

  /** The x, y, z sums of a list of vectors. */
  function NormalSum(ns: seq<Vector>): Vector
  {
    if ns == [] then Vec4(0.0, 0.0, 0.0, 0.0)
    else
      var t, v := NormalSum(ns[..|ns| - 1]), ns[|ns| - 1];
      Vec4(t.x + v.x, t.y + v.y, t.z + v.z, 0.0)
  }

  /** The average normal of the ShadeFlat branch: the component sums
      divided by nVertex. */
  function AverageNormal(ns: seq<Vector>): (a: Vector)
    ensures |ns| > 0 ==>
              var t := NormalSum(ns);
              a.x * |ns| as real == t.x && a.y * |ns| as real == t.y && a.z * |ns| as real == t.z
  {
    var t, n := NormalSum(ns), |ns| as real;
    Vec4(Quot(t.x, n), Quot(t.y, n), Quot(t.z, n), 0.0)
  }

  /** k equal normals sum to k times that normal. */
  lemma {:induction false} NormalSumConstant(u: Vector, k: nat)
    ensures NormalSum(seq(k, i => u)) == Vec4(k as real * u.x, k as real * u.y, k as real * u.z, 0.0)
  {
    if k > 0 {
      var s := seq(k, i => u);
      assert s[..k - 1] == seq(k - 1, i => u);
      NormalSumConstant(u, k - 1);
    }
  }

  /** When all normals are equal, their average is that normal. */
  lemma AverageOfEqualNormals(u: Vector, k: nat)
    requires k > 0
    ensures AverageNormal(seq(k, i => u)) == u.(w := 0.0)
  {
    NormalSumConstant(u, k);
  }

  /** Every vector of a list normalised, as the ShadeFlat loop does to
      the normals in place. */
  function UnitNormals(m: Libm, ns: seq<Vector>): (us: seq<Vector>)
    ensures |us| == |ns|
  {
    seq(|ns|, i requires 0 <= i < |ns| => Geometry.Normalize(m, ns[i]))
  }

  /** Polygon_shade for ShadeFlat and ShadeGouraud.  The colour array is
      reallocated with nVertex entries.

      ShadeFlat normalises every normal in place, averages them, and
      shades once with the average normal, writing ds.flatColor and
      giving every vertex that colour.  The view vector and the shaded
      point come from vertex[nVertex], one past the end of the array; the
      model takes that value as `pastEnd`.

      ShadeGouraud shades each vertex with its own normal (normalised
      twice: by Polygon_shade and again inside Lighting_shading, which
      also normalises the vertex in place) and leaves ds alone. */
  function Shade(m: Libm, p: Polygon, lights: Lighting.Lights, ds: DrawStates.DrawState,
                 pastEnd: Point): (r: (Polygon, DrawStates.DrawState))
    requires lights.Valid()
    requires ds.shade == DrawStates.ShadeFlat || ds.shade == DrawStates.ShadeGouraud
    requires p.normal.Some? && |p.normal.value| >= |p.vertex|
    ensures var (q, ds') := r;
            && q.color.Some? && |q.color.value| == |p.vertex|
            && q.normal.Some? && |q.normal.value| == |p.normal.value|
            && q.normal.value[|p.vertex|..] == p.normal.value[|p.vertex|..]
            && q.(vertex := p.vertex, normal := p.normal, color := p.color) == p
            && |q.vertex| == |p.vertex|
    ensures var (q, ds') := r;
            ds.shade == DrawStates.ShadeFlat ==>
              && q.vertex == p.vertex
              && (forall i :: 0 <= i < |p.vertex| ==> q.normal.value[i] == Geometry.Normalize(m, p.normal.value[i]))
              && ds'.(flatColor := ds.flatColor) == ds
              && (forall i :: 0 <= i < |p.vertex| ==> q.color.value[i] == ds'.flatColor)
              && ds'.flatColor
                 == Lighting.Shading(m, lights, Geometry.Normalize(m, AverageNormal(UnitNormals(m, p.normal.value[..|p.vertex|]))),
                                     Geometry.Normalize(m, ViewVector(ds.viewer, pastEnd)), pastEnd,
                                     ds.body, ds.surface, Sharpness, p.oneSided)
    ensures var (q, ds') := r;
            ds.shade == DrawStates.ShadeGouraud ==>
              && ds' == ds
              && forall i :: 0 <= i < |p.vertex| ==>
                   && q.vertex[i] == PointNormalize(p.vertex[i])
                   && q.normal.value[i] == Geometry.Normalize(m, Geometry.Normalize(m, p.normal.value[i]))
                   && q.color.value[i]
                      == Lighting.Shading(m, lights, Geometry.Normalize(m, p.normal.value[i]),
                                          Geometry.Normalize(m, ViewVector(ds.viewer, p.vertex[i])),
                                          p.vertex[i], ds.body, ds.surface, Sharpness, p.oneSided)
  {
    var n := |p.vertex|;
    var ns := p.normal.value;
    if ds.shade == DrawStates.ShadeFlat then
      var ns' := UnitNormals(m, ns[..n]) + ns[n..];
      assert ns'[..n] == UnitNormals(m, ns[..n]);
      var avg := Geometry.Normalize(m, AverageNormal(ns'[..n]));
      var view := Geometry.Normalize(m, ViewVector(ds.viewer, pastEnd));
      var flat := Lighting.Shading(m, lights, avg, view, pastEnd, ds.body, ds.surface, Sharpness, p.oneSided);
      (p.(normal := Some(ns'), color := Some(seq(n, i => flat))), ds.(flatColor := flat))
    else
      var colors := seq(n, i requires 0 <= i < n =>
                          Lighting.Shading(m, lights, Geometry.Normalize(m, ns[i]),
                                           Geometry.Normalize(m, ViewVector(ds.viewer, p.vertex[i])),
                                           p.vertex[i], ds.body, ds.surface, Sharpness, p.oneSided));
      var ns' := seq(n, i requires 0 <= i < n => Geometry.Normalize(m, Geometry.Normalize(m, ns[i]))) + ns[n..];
      var vs := seq(n, i requires 0 <= i < n => PointNormalize(p.vertex[i]));
      (p.(vertex := vs, normal := Some(ns'), color := Some(colors)), ds)
  }

  /** A flat-shaded polygon whose normals are all one unit vector u is
      shaded with u itself: normalising each normal and averaging them
      gives u back (with w = 0). */
  lemma FlatOfEqualUnitNormals(m: Libm, p: Polygon, lights: Lighting.Lights, ds: DrawStates.DrawState,
                               pastEnd: Point, u: Vector)
    requires lights.Valid()
    requires ds.shade == DrawStates.ShadeFlat
    requires p.normal.Some? && |p.normal.value| >= |p.vertex| >= 1
    requires Geometry.Length(m, u) == 1.0
    requires forall i :: 0 <= i < |p.vertex| ==> p.normal.value[i] == u
    ensures Shade(m, p, lights, ds, pastEnd).1.flatColor
            == Lighting.Shading(m, lights, Geometry.Normalize(m, u.(w := 0.0)),
                                Geometry.Normalize(m, ViewVector(ds.viewer, pastEnd)), pastEnd,
                                ds.body, ds.surface, Sharpness, p.oneSided)
  {
    var n := |p.vertex|;
    var c := u.(w := 0.0);
    var us := UnitNormals(m, p.normal.value[..n]);
    AverageOfEqualNormals(c, n);
    assert us == seq(n, i => c) by {
      Geometry.NormalizeUnit(m, u);
    }
  }

  /** Under Gouraud shading with no point lights every vertex gets the
      same colour, the sum of the ambient terms, whatever its normal and
      position. */
  lemma GouraudWithoutPointLights(m: Libm, p: Polygon, lights: Lighting.Lights, ds: DrawStates.DrawState,
                                  pastEnd: Point, i: int)
    requires lights.Valid()
    requires ds.shade == DrawStates.ShadeGouraud
    requires p.normal.Some? && |p.normal.value| >= |p.vertex|
    requires forall k :: 0 <= k < lights.nLights ==> lights.light[k].ltype != Lighting.LightPoint
    requires 0 <= i < |p.vertex|
    ensures Shade(m, p, lights, ds, pastEnd).0.color.value[i]
            == Lighting.AmbientSum(lights.light, lights.nLights, ds.body)
  {
    var v := p.vertex[i];
    Lighting.NoPointLightsIsAmbient(m, lights.light, lights.nLights,
                                    Geometry.Normalize(m, Geometry.Normalize(m, p.normal.value[i])),
                                    Geometry.Normalize(m, Geometry.Normalize(m, ViewVector(ds.viewer, v))),
                                    PointNormalize(v), ds.body, ds.surface, Sharpness, p.oneSided);
  }

  // ---------------------------------------------------------------- frame

  /** One edge as Polygon_drawFrame builds it: two 2D points (z 0, w 1)
      and the polygon's z-buffer flag. */
  function Segment(u: Point, v: Point, zBuffer: int): (l: Lines.Line)
    ensures l == Lines.Line(zBuffer, PointSet2D(u.x, u.y), PointSet2D(v.x, v.y))
  {
    Lines.SetZBuffer(Lines.LineSet(PointSet2D(u.x, u.y), PointSet2D(v.x, v.y)), zBuffer)
  }

  /** The lines Polygon_drawFrame draws, in order: one per consecutive
      pair, then the closing edge from the last vertex to the first. */
  function Frame(p: Polygon): (segs: seq<Lines.Line>)
    requires |p.vertex| >= 1
    ensures |segs| == |p.vertex|
    ensures forall i :: 0 <= i < |segs| - 1 ==>
              segs[i] == Segment(p.vertex[i], p.vertex[i + 1], p.zBuffer)
    ensures segs[|segs| - 1] == Segment(p.vertex[|segs| - 1], p.vertex[0], p.zBuffer)
  {
    var n := |p.vertex|;
    var open := seq(n - 1, i requires 0 <= i < n - 1 => Segment(p.vertex[i], p.vertex[i + 1], p.zBuffer));
    var segs := open + [Segment(p.vertex[n - 1], p.vertex[0], p.zBuffer)];
    assert forall i :: 0 <= i < n - 1 ==> segs[i] == open[i];
    segs
  }

  /** The frame is a closed loop: each edge starts where the previous one
      ends, the first where the last ends. */
  lemma FrameClosed(p: Polygon, i: int)
    requires |p.vertex| >= 1 && 0 <= i < |p.vertex|
    ensures var segs := Frame(p);
            segs[(i + 1) % |segs|].a == segs[i].b
  {
    var n := |p.vertex|;
    if i == n - 1 {
      assert (i + 1) % n == 0;
    } else {
      assert (i + 1) % n == i + 1;
    }
  }

  /** A copy has the same frame as the original. */
  lemma FrameOfCopy(to: Polygon, from: Polygon)
    requires ArraysCover(from) && |from.vertex| >= 1
    ensures Frame(Copy(to, from)) == Frame(from)
  {
  }

  /** Polygon_drawFrame drawing into an image.  With the z-buffer flag 1
      the 2D endpoints (z = 0) would make Line_drawZBuffer divide by
      zero, so only the other flag values are drawn here. */
  function DrawFrame(img: Image, p: Polygon, c: Color): (img': Image)
    requires img.Valid() && |p.vertex| >= 1 && p.zBuffer != 1
    ensures img'.Valid() && img'.rows == img.rows && img'.cols == img.cols
    ensures forall r, col :: img.InBounds(r, col) ==> GetZ(img', r, col) == GetZ(img, r, col)
  {
    Lines.DrawAll(img, Frame(p), c)
  }
}

/** Module_draw (lib/module.c:280-477): the interpreter that walks a
    module's element list.

    The walk keeps a local transform LTM, starting at the identity, the
    DrawState it was handed (mutated in place by attribute elements), and
    one scratch polygon reused by every polygon element.  Each drawing
    element becomes one command for a rasteriser; the model stops at the
    command (its colour, geometry and, for polygons, the DrawState the
    scanline fill reads) and does not repeat the rasterisers here.

    Nesting has no cycle guard in the C; `fuel` bounds the depth of
    sub-module calls and the walk yields `None` when it runs out. */
module ModuleDraw {
  import opened CNum
  import opened Colors
  import opened Geometry
  import opened Matrices
  import opened DrawStates
  import opened Modules
  import Lighting
  import Lines
  import Polylines
  import Polygons
  import Circles

  /** What Module_draw hands to a rasteriser. */
  datatype Command =
    | DrawLine(line: Lines.Line, color: Color)
    | DrawPoint(point: Point, color: Color)
    | DrawPolyline(vertex: seq<Point>, color: Color)
    | DrawPolygon(polygon: Polygons.Polygon, ds: DrawState)
    | DrawCircle(circle: Circles.Circle, color: Color, vtm: Matrix)

  /** What stays fixed for a whole traversal: the math library, the view
      transform VTM and the lighting.  `pastEnd` is what Polygon_shade
      reads one past the vertex array of the polygon it shades. */
  datatype Scene = Scene(m: Libm, vtm: Matrix, lights: Lighting.Lights, pastEnd: Polygons.Polygon -> Point)

  /** The state of one Module_draw call part-way through its list: LTM,
      the DrawState, the scratch polygon and the commands so far. */
  datatype Walk = Walk(ltm: Matrix, ds: DrawState, pg: Polygons.Polygon, out: seq<Command>)

  ghost predicate Ready(sc: Scene, s: Store)
  {
    sc.lights.Valid() && WellFormed(s)
  }

  /** The DrawState fields no element of a module can change. */
  predicate SameSetup(a: DrawState, b: DrawState)
  {
    a.shade == b.shade && a.viewer == b.viewer && a.zBufferFlag == b.zBufferFlag
  }

  // ------------------------------------------------------ transforms

  /** Transforming a line by b and then by a is transforming it by a × b. */
  lemma XformLineCompose(a: Matrix, b: Matrix, l: Lines.Line)
    ensures XformLine(a, XformLine(b, l)) == XformLine(Multiply(a, b), l)
  {
    XformMultiply(a, b, l.a);
    XformMultiply(a, b, l.b);
  }

  /** The three transforms Module_draw applies in turn, as one matrix:
      VTM × (GTM × LTM). */
  function Full(vtm: Matrix, gtm: Matrix, ltm: Matrix): Matrix
  {
    Multiply(vtm, Multiply(gtm, ltm))
  }

  /** Transforming by LTM, then GTM, then VTM is transforming by Full. */
  lemma XformThree(vtm: Matrix, gtm: Matrix, ltm: Matrix, p: Vec4)
    ensures Xform(vtm, Xform(gtm, Xform(ltm, p))) == Xform(Full(vtm, gtm, ltm), p)
  {
    XformMultiply(gtm, ltm, p);
    XformMultiply(vtm, Multiply(gtm, ltm), p);
  }

  // ------------------------------------------------------ drawing elements

  /** ObjLine: a copy of the line transformed by LTM, GTM and VTM,
      normalised, drawn in ds.color. */
  function LineCommand(vtm: Matrix, gtm: Matrix, ltm: Matrix, l: Lines.Line, c: Color): (cmd: Command)
    ensures cmd == DrawLine(Lines.LineNormalize(XformLine(Full(vtm, gtm, ltm), l)), c)
  {
    XformLineCompose(gtm, ltm, l);
    XformLineCompose(vtm, Multiply(gtm, ltm), l);
    DrawLine(Lines.LineNormalize(XformLine(vtm, XformLine(gtm, XformLine(ltm, l)))), c)
  }

  /** ObjPolyline: the same for every vertex, drawn as an open chain in
      ds.color.  Polyline_drawFrame never reads the z-buffer flag of the
      scratch polyline, so only the vertices are kept. */
  function PolylineCommand(vtm: Matrix, gtm: Matrix, ltm: Matrix, pl: Polylines.Polyline, c: Color): (cmd: Command)
    ensures cmd == DrawPolyline(Polylines.Normalize(XformPolyline(Full(vtm, gtm, ltm), pl)).vertex, c)
  {
    XformPolylineCompose(gtm, ltm, pl);
    XformPolylineCompose(vtm, Multiply(gtm, ltm), pl);
    var q := Polylines.Copy(Polylines.SetNULL(pl), pl);
    DrawPolyline(Polylines.Normalize(XformPolyline(vtm, XformPolyline(gtm, XformPolyline(ltm, q)))).vertex, c)
  }

  /** Matrix_xformPoint with the same point as source and destination, as
      Module_draw calls it: each component is stored before the next row
      is computed, so rows 1 to 3 read the new values of the components
      before them. */
  function XformPointInPlace(m: Matrix, p: Point): Point
  {
    var x := Dot4(m.r0, p);
    var y := Dot4(m.r1, Vec4(x, p.y, p.z, p.w));
    var z := Dot4(m.r2, Vec4(x, y, p.z, p.w));
    Vec4(x, y, z, Dot4(m.r3, Vec4(x, y, z, p.w)))
  }

  /** A matrix whose entries below the diagonal are all 0. */
  predicate UpperTriangular(m: Matrix)
  {
    m.r1.x == 0.0 && m.r2.x == 0.0 && m.r2.y == 0.0 && m.r3.x == 0.0 && m.r3.y == 0.0 && m.r3.z == 0.0
  }

  /** The in-place transform is the true product exactly for the matrices
      whose rows never read an overwritten component: the upper triangular
      ones (translations and scales among them). */
  lemma XformPointInPlaceUpperTriangular(m: Matrix, p: Point)
    requires UpperTriangular(m)
    ensures XformPointInPlace(m, p) == Xform(m, p)
  {
  }

  /** A quarter turn about z takes (1, 0, 0) to (0, 1, 0); transformed in
      place, the point lands on the origin. */
  lemma XformPointInPlaceMisplaces()
    ensures Xform(RotateZMatrix(0.0, 1.0), PointSet(1.0, 0.0, 0.0)) == PointSet(0.0, 1.0, 0.0)
    ensures XformPointInPlace(RotateZMatrix(0.0, 1.0), PointSet(1.0, 0.0, 0.0)) == PointSet(0.0, 0.0, 0.0)
  {
    var m := Matrix(Vec4(0.0, -1.0, 0.0, 0.0), Vec4(1.0, 0.0, 0.0, 0.0),
                    Vec4(0.0, 0.0, 1.0, 0.0), Vec4(0.0, 0.0, 0.0, 1.0));
    assert RotateZMatrix(0.0, 1.0) == m;
    assert PointSet(1.0, 0.0, 0.0) == Vec4(1.0, 0.0, 0.0, 1.0);
    assert Xform(m, Vec4(1.0, 0.0, 0.0, 1.0)) == Vec4(0.0, 1.0, 0.0, 1.0);
    assert XformPointInPlace(m, Vec4(1.0, 0.0, 0.0, 1.0)) == Vec4(0.0, 0.0, 0.0, 1.0);
  }

  /** ObjPoint as written: three in-place transforms, then Point_normalize. */
  function PointCommandAsWritten(vtm: Matrix, gtm: Matrix, ltm: Matrix, p: Point, c: Color): Command
  {
    DrawPoint(PointNormalize(XformPointInPlace(vtm, XformPointInPlace(gtm, XformPointInPlace(ltm, p)))), c)
  }

  /** While LTM, GTM and VTM are all upper triangular (translations and
      scales only), the written point command draws where a line endpoint
      would be drawn. */
  lemma PointCommandAsWrittenUpperTriangular(vtm: Matrix, gtm: Matrix, ltm: Matrix, p: Point, c: Color)
    requires UpperTriangular(ltm) && UpperTriangular(gtm) && UpperTriangular(vtm)
    ensures PointCommandAsWritten(vtm, gtm, ltm, p, c) == DrawPoint(PointNormalize(Xform(Full(vtm, gtm, ltm), p)), c)
  {
    XformPointInPlaceUpperTriangular(ltm, p);
    XformPointInPlaceUpperTriangular(gtm, Xform(ltm, p));
    XformPointInPlaceUpperTriangular(vtm, Xform(gtm, Xform(ltm, p)));
    XformThree(vtm, gtm, ltm, p);
  }

  /** ObjPoint as intended: the point transformed like a line endpoint. */
  function PointCommand(vtm: Matrix, gtm: Matrix, ltm: Matrix, p: Point, c: Color): (cmd: Command)
    ensures cmd == DrawPoint(PointNormalize(Xform(Full(vtm, gtm, ltm), p)), c)
  {
    XformThree(vtm, gtm, ltm, p);
    DrawPoint(PointNormalize(Xform(vtm, Xform(gtm, Xform(ltm, p)))), c)
  }

  /** The in-place transform by the identity leaves a point alone. */
  lemma XformPointInPlaceIdentity(p: Point)
    ensures XformPointInPlace(Identity(), p) == p
  {
    XformPointInPlaceUpperTriangular(Identity(), p);
    XformIdentity(p);
  }

  /** With GTM and VTM the identity only the LTM's in-place transform is left. */
  lemma PointCommandAsWrittenLocalOnly(ltm: Matrix, p: Point, c: Color)
    ensures PointCommandAsWritten(Identity(), Identity(), ltm, p, c) == DrawPoint(PointNormalize(XformPointInPlace(ltm, p)), c)
  {
    var q := XformPointInPlace(ltm, p);
    XformPointInPlaceIdentity(q);
  }

  /** A point element under a quarter-turn LTM, with GTM and VTM the
      identity: the written code draws it at the origin ... */
  lemma PointCommandAsWrittenMisplaces(c: Color)
    ensures PointCommandAsWritten(Identity(), Identity(), RotateZMatrix(0.0, 1.0), PointSet(1.0, 0.0, 0.0), c)
            == DrawPoint(PointSet(0.0, 0.0, 0.0), c)
  {
    PointCommandAsWrittenLocalOnly(RotateZMatrix(0.0, 1.0), PointSet(1.0, 0.0, 0.0), c);
    XformPointInPlaceMisplaces();
    PointNormalizeFixes(PointSet(0.0, 0.0, 0.0));
  }

  /** ... and the intended transform at (0, 1). */
  lemma PointCommandPlaces(c: Color)
    ensures PointCommand(Identity(), Identity(), RotateZMatrix(0.0, 1.0), PointSet(1.0, 0.0, 0.0), c)
            == DrawPoint(PointSet(0.0, 1.0, 0.0), c)
  {
    var q := PointSet(0.0, 1.0, 0.0);
    calc {
      PointCommand(Identity(), Identity(), RotateZMatrix(0.0, 1.0), PointSet(1.0, 0.0, 0.0), c);
      DrawPoint(PointNormalize(Xform(Identity(), Xform(Identity(), Xform(RotateZMatrix(0.0, 1.0), PointSet(1.0, 0.0, 0.0))))), c);
      { XformPointInPlaceMisplaces(); }
      DrawPoint(PointNormalize(Xform(Identity(), Xform(Identity(), q))), c);
      { XformIdentity(q); }
      DrawPoint(PointNormalize(q), c);
      { PointNormalizeFixes(q); }
      DrawPoint(q, c);
    }
  }

  /** ObjPolygon: Polygon_copy into the scratch polygon, LTM then GTM,
      world coordinates for Phong, Polygon_shade for Flat and Gouraud
      (Flat shading writes ds.flatColor, and the write stays), then VTM and
      Polygon_normalize.  The result is the new scratch polygon, which is
      also what Polygon_drawShade receives, and the DrawState after it. */
  function PolygonStep(sc: Scene, gtm: Matrix, ltm: Matrix, ds: DrawState, pg: Polygons.Polygon,
                       q: Polygons.Polygon): (r: (Polygons.Polygon, DrawState))
    requires sc.lights.Valid() && Drawable(q)
    ensures |r.0.vertex| == |q.vertex|
    ensures SameSetup(r.1, ds) && r.1.(flatColor := ds.flatColor) == ds
    ensures ds.shade != ShadeFlat ==> r.1 == ds
  {
    var p0 := Polygons.Copy(pg, q);
    var p2 := XformPolygon(gtm, XformPolygon(ltm, p0));
    var p3 := if ds.shade == ShadePhong then Polygons.SetWorld(p2, |p2.vertex|) else p2;
    var sh := if ds.shade == ShadeFlat || ds.shade == ShadeGouraud
              then Polygons.Shade(sc.m, p3, sc.lights, ds, sc.pastEnd(p3))
              else (p3, ds);
    PolygonStepFacts(sc, gtm, ltm, ds, pg, q, p0, p2, p3, sh);
    var r0 := Polygons.Normalize(XformPolygon(sc.vtm, sh.0));
    PolygonStepResult(sc, gtm, ltm, ds, q, p3, sh, r0);
    (r0, sh.1)
  }

  /** The scratch polygon PolygonStep leaves, stage by stage. */
  lemma PolygonStepStages(sc: Scene, gtm: Matrix, ltm: Matrix, ds: DrawState, pg: Polygons.Polygon,
                          q: Polygons.Polygon)
    returns (p3: Polygons.Polygon, sh: (Polygons.Polygon, DrawState))
    requires sc.lights.Valid() && Drawable(q)
    ensures var r := PolygonStep(sc, gtm, ltm, ds, pg, q);
            && |p3.vertex| == |q.vertex| == |sh.0.vertex|
            && p3.normal.Some? && |p3.normal.value| >= |q.vertex|
            && (forall i :: 0 <= i < |q.vertex| ==>
                  p3.vertex[i] == Xform(Multiply(gtm, ltm), q.vertex[i])
                  && p3.normal.value[i] == Xform(Multiply(gtm, ltm), q.normal.value[i]))
            && (ds.shade != ShadeGouraud ==> sh.0.vertex == p3.vertex)
            && (ds.shade == ShadeGouraud ==> forall i :: 0 <= i < |q.vertex| ==> sh.0.vertex[i] == PointNormalize(p3.vertex[i]))
            && (ds.shade == ShadePhong ==>
                  && sh.0 == p3 && p3.wVertex.Some? && p3.wNormal.Some?
                  && |p3.wVertex.value| == |q.vertex| && |p3.wNormal.value| == |q.vertex|
                  && forall i :: 0 <= i < |q.vertex| ==>
                       p3.wVertex.value[i] == p3.vertex[i] && p3.wNormal.value[i] == p3.normal.value[i])
            && (ds.shade == ShadeFlat ==>
                  && sh.0.color.Some? && |sh.0.color.value| == |q.vertex|
                  && forall i :: 0 <= i < |q.vertex| ==> sh.0.color.value[i] == sh.1.flatColor)
            && r.1 == sh.1
            && r.0.color == sh.0.color && r.0.wVertex == sh.0.wVertex && r.0.wNormal == sh.0.wNormal
            && forall i :: 0 <= i < |q.vertex| ==> r.0.vertex[i] == PointNormalize(Xform(sc.vtm, sh.0.vertex[i]))
  {
    var p0 := Polygons.Copy(pg, q);
    var p2 := XformPolygon(gtm, XformPolygon(ltm, p0));
    p3 := if ds.shade == ShadePhong then Polygons.SetWorld(p2, |p2.vertex|) else p2;
    sh := if ds.shade == ShadeFlat || ds.shade == ShadeGouraud
          then Polygons.Shade(sc.m, p3, sc.lights, ds, sc.pastEnd(p3))
          else (p3, ds);
    PolygonStepFacts(sc, gtm, ltm, ds, pg, q, p0, p2, p3, sh);
    var r0 := Polygons.Normalize(XformPolygon(sc.vtm, sh.0));
    PolygonStepResult(sc, gtm, ltm, ds, q, p3, sh, r0);
  }

  /** Without Gouraud shading every vertex of a drawn polygon is the
      source vertex under VTM × GTM × LTM, normalised: where a line
      endpoint would go.  Gouraud shading normalises the world vertex
      first, and VTM is applied to that. */
  lemma PolygonStepVertices(sc: Scene, gtm: Matrix, ltm: Matrix, ds: DrawState, pg: Polygons.Polygon,
                            q: Polygons.Polygon, i: nat)
    requires sc.lights.Valid() && Drawable(q) && i < |q.vertex|
    ensures var r := PolygonStep(sc, gtm, ltm, ds, pg, q);
            && (ds.shade != ShadeGouraud ==>
                  r.0.vertex[i] == PointNormalize(Xform(Full(sc.vtm, gtm, ltm), q.vertex[i])))
            && (ds.shade == ShadeGouraud ==>
                  r.0.vertex[i] == PointNormalize(Xform(sc.vtm, PointNormalize(Xform(Multiply(gtm, ltm), q.vertex[i])))))
  {
    var p3, sh := PolygonStepStages(sc, gtm, ltm, ds, pg, q);
    XformMultiply(sc.vtm, Multiply(gtm, ltm), q.vertex[i]);
  }

  /** Phong shading hands the rasteriser the world vertices and normals:
      the source ones under GTM × LTM. */
  lemma PolygonStepPhong(sc: Scene, gtm: Matrix, ltm: Matrix, ds: DrawState, pg: Polygons.Polygon,
                         q: Polygons.Polygon)
    requires sc.lights.Valid() && Drawable(q) && ds.shade == ShadePhong
    ensures var r := PolygonStep(sc, gtm, ltm, ds, pg, q);
            && r.0.wVertex.Some? && r.0.wNormal.Some?
            && |r.0.wVertex.value| == |q.vertex| && |r.0.wNormal.value| == |q.vertex|
            && forall i :: 0 <= i < |q.vertex| ==>
                 r.0.wVertex.value[i] == Xform(Multiply(gtm, ltm), q.vertex[i])
                 && r.0.wNormal.value[i] == Xform(Multiply(gtm, ltm), q.normal.value[i])
  {
    var p3, sh := PolygonStepStages(sc, gtm, ltm, ds, pg, q);
  }

  /** Flat shading colours every vertex with the one colour Polygon_shade
      computed, and that colour stays in the DrawState's flatColor. */
  lemma PolygonStepFlat(sc: Scene, gtm: Matrix, ltm: Matrix, ds: DrawState, pg: Polygons.Polygon,
                        q: Polygons.Polygon)
    requires sc.lights.Valid() && Drawable(q) && ds.shade == ShadeFlat
    ensures var r := PolygonStep(sc, gtm, ltm, ds, pg, q);
            && r.0.color.Some? && |r.0.color.value| == |q.vertex|
            && forall i :: 0 <= i < |q.vertex| ==> r.0.color.value[i] == r.1.flatColor
  {
    var p3, sh := PolygonStepStages(sc, gtm, ltm, ds, pg, q);
  }

  /** The stages of PolygonStep up to shading. */
  lemma PolygonStepFacts(sc: Scene, gtm: Matrix, ltm: Matrix, ds: DrawState, pg: Polygons.Polygon,
                         q: Polygons.Polygon, p0: Polygons.Polygon, p2: Polygons.Polygon, p3: Polygons.Polygon,
                         sh: (Polygons.Polygon, DrawState))
    requires sc.lights.Valid() && Drawable(q)
    requires p0 == Polygons.Copy(pg, q)
    requires p2 == XformPolygon(gtm, XformPolygon(ltm, p0))
    requires p3 == if ds.shade == ShadePhong then Polygons.SetWorld(p2, |p2.vertex|) else p2
    requires sh == if ds.shade == ShadeFlat || ds.shade == ShadeGouraud
                   then Polygons.Shade(sc.m, p3, sc.lights, ds, sc.pastEnd(p3))
                   else (p3, ds)
    ensures p3.normal.Some? && |p3.normal.value| >= |p3.vertex| == |q.vertex|
    ensures sh.0.normal.Some? && |sh.0.normal.value| >= |sh.0.vertex| == |q.vertex|
    ensures forall i :: 0 <= i < |q.vertex| ==>
              p3.vertex[i] == Xform(Multiply(gtm, ltm), q.vertex[i])
              && p3.normal.value[i] == Xform(Multiply(gtm, ltm), q.normal.value[i])
    ensures ds.shade != ShadeGouraud ==> sh.0.vertex == p3.vertex
    ensures ds.shade == ShadeGouraud ==> forall i :: 0 <= i < |q.vertex| ==> sh.0.vertex[i] == PointNormalize(p3.vertex[i])
    ensures ds.shade == ShadePhong ==>
              && sh.0 == p3 && p3.wVertex.Some? && p3.wNormal.Some?
              && |p3.wVertex.value| == |q.vertex| && |p3.wNormal.value| == |q.vertex|
              && forall i :: 0 <= i < |q.vertex| ==>
                   p3.wVertex.value[i] == p3.vertex[i] && p3.wNormal.value[i] == p3.normal.value[i]
    ensures SameSetup(sh.1, ds) && sh.1.(flatColor := ds.flatColor) == ds
    ensures ds.shade != ShadeFlat ==> sh.1 == ds
    ensures ds.shade == ShadeFlat ==>
              sh.0.color.Some? && |sh.0.color.value| == |q.vertex|
              && forall i :: 0 <= i < |q.vertex| ==> sh.0.color.value[i] == sh.1.flatColor
  {
    XformPolygonCompose(gtm, ltm, p0);
  }

  /** The stages of PolygonStep after shading. */
  lemma PolygonStepResult(sc: Scene, gtm: Matrix, ltm: Matrix, ds: DrawState, q: Polygons.Polygon,
                          p3: Polygons.Polygon, sh: (Polygons.Polygon, DrawState), r0: Polygons.Polygon)
    requires sh.0.normal.Some? && |sh.0.normal.value| >= |sh.0.vertex| == |q.vertex| == |p3.vertex|
    requires r0 == Polygons.Normalize(XformPolygon(sc.vtm, sh.0))
    ensures |r0.vertex| == |q.vertex|
    ensures r0.color == sh.0.color && r0.wVertex == sh.0.wVertex && r0.wNormal == sh.0.wNormal
    ensures forall i :: 0 <= i < |q.vertex| ==> r0.vertex[i] == PointNormalize(Xform(sc.vtm, sh.0.vertex[i]))
  {
  }

  // ------------------------------------------------------ one element

  /** What one element other than ObjModule does to the walk. */
  function Act(sc: Scene, e: Element, gtm: Matrix, w: Walk): (r: Walk)
    requires sc.lights.Valid() && Carries(e) && e.kind != ObjModule
    ensures SameSetup(r.ds, w.ds)
    ensures |w.out| <= |r.out| <= |w.out| + 1 && r.out[..|w.out|] == w.out
    ensures e.kind in {ObjLine, ObjPoint, ObjPolyline, ObjPolygon, ObjCircle} <==> |r.out| == |w.out| + 1
    ensures e.kind != ObjIdentity && e.kind != ObjMatrix ==> r.ltm == w.ltm
    ensures e.kind != ObjPolygon ==> r.pg == w.pg
    ensures e.kind in {ObjNone, ObjLight, ObjSphere, ObjPlane} ==> r == w
  {
    var c := w.ds.color;
    match e.kind
    case ObjLine => w.(out := w.out + [LineCommand(sc.vtm, gtm, w.ltm, e.obj.line, c)])
    case ObjPoint => w.(out := w.out + [PointCommandAsWritten(sc.vtm, gtm, w.ltm, e.obj.point, c)])
    case ObjPolyline => w.(out := w.out + [PolylineCommand(sc.vtm, gtm, w.ltm, e.obj.polyline, c)])
    case ObjPolygon =>
      var (pg, ds) := PolygonStep(sc, gtm, w.ltm, w.ds, w.pg, e.obj.polygon);
      Walk(w.ltm, ds, pg, w.out + [DrawPolygon(pg, ds)])
    case ObjCircle => w.(out := w.out + [DrawCircle(e.obj.circle, c, sc.vtm)])
    case ObjIdentity => w.(ltm := Identity())
    case ObjMatrix => w.(ltm := Multiply(e.obj.matrix, w.ltm))
    case ObjColor => w.(ds := SetColor(w.ds, e.obj.color))
    case ObjBodyColor => w.(ds := SetBody(w.ds, e.obj.color))
    case ObjSurfaceColor => w.(ds := SetSurface(w.ds, e.obj.color))
    case ObjSurfaceCoeff => w.(ds := SetSurfaceCoeff(w.ds, e.obj.coeff))
    case ObjTexture => w.(ds := w.ds.(tex := e.obj.tex))
    case _ => w
  }

  // ------------------------------------------------------ the traversal

  /** Module_draw: the element list walked from LTM = identity and an
      empty scratch polygon; the commands issued and the DrawState left
      behind. */
  function Draw(sc: Scene, s: Store, md: nat, gtm: Matrix, ds: DrawState, fuel: nat)
    : (r: Option<(seq<Command>, DrawState)>)
    requires Ready(sc, s) && md < |s| && s[md].Live?
    ensures r.Some? ==> SameSetup(r.value.1, ds)
    decreases fuel, 2, 0
  {
    match Run(sc, s, s[md].elements, gtm, Walk(Identity(), ds, Polygons.SetNULL(), []), fuel)
    case None => None
    case Some(w) => Some((w.out, w.ds))
  }

  /** The loop of Module_draw over a list of elements. */
  function Run(sc: Scene, s: Store, es: seq<Element>, gtm: Matrix, w: Walk, fuel: nat): (r: Option<Walk>)
    requires Ready(sc, s) && forall i :: 0 <= i < |es| ==> ElementOk(s, es[i])
    ensures r.Some? ==> SameSetup(r.value.ds, w.ds)
    ensures r.Some? ==> |w.out| <= |r.value.out| && r.value.out[..|w.out|] == w.out
    decreases fuel, 1, |es|
  {
    if es == [] then Some(w)
    else
      match Visit(sc, s, es[0], gtm, w, fuel)
      case None => None
      case Some(w1) => Run(sc, s, es[1..], gtm, w1, fuel)
  }

  /** One element.  ObjModule draws the sub-module with GTM × LTM and a
      copy of the DrawState; the copy is dropped afterwards, so the
      caller's DrawState, LTM and scratch polygon are what they were. */
  function Visit(sc: Scene, s: Store, e: Element, gtm: Matrix, w: Walk, fuel: nat): (r: Option<Walk>)
    requires Ready(sc, s) && ElementOk(s, e)
    ensures r.Some? ==> SameSetup(r.value.ds, w.ds)
    ensures r.Some? ==> |w.out| <= |r.value.out| && r.value.out[..|w.out|] == w.out
    ensures e.kind == ObjModule && r.Some? ==> r.value.ltm == w.ltm && r.value.ds == w.ds && r.value.pg == w.pg
    decreases fuel, 0, 0
  {
    if e.kind != ObjModule then Some(Act(sc, e, gtm, w))
    else if fuel == 0 then None
    else
      match Draw(sc, s, e.obj.id, Multiply(gtm, w.ltm), w.ds, fuel - 1)
      case None => None
      case Some((out, _)) => Some(w.(out := w.out + out))
  }
}

/** The scene graph of lib/module.c (types in include/cb_module.h:11-58).

    A Module is a singly-linked list of Elements, each a type tag and a
    payload union.  Sub-modules are held by pointer, so the model keeps
    every module in a store indexed by a module id and an ObjModule
    element holds the id: changing a sub-module after it was added changes
    what its parents draw.

    Module_draw is an interpreter over the list.  Its output here is the
    sequence of draw commands it hands to the rasterisers, together with
    the DrawState it leaves behind (the C mutates the caller's DrawState
    in place).  The C has no guard against a module that contains itself;
    the model bounds the nesting depth by `fuel` and yields `None` when the
    fuel runs out. */
module Modules {
  import opened CNum
  import opened Colors
  import opened Geometry
  import opened Matrices
  import opened DrawStates
  import Lighting
  import Lines
  import Polylines
  import Polygons
  import Circles

  datatype ObjectType =
    | ObjNone | ObjLine | ObjPoint | ObjPolyline | ObjPolygon | ObjCircle | ObjSphere | ObjPlane
    | ObjIdentity | ObjMatrix | ObjColor | ObjBodyColor | ObjSurfaceColor | ObjSurfaceCoeff
    | ObjLight | ObjTexture | ObjModule

  /** The payload union.  A texture is held by pointer (`None` is NULL),
      a sub-module by its id in the store. */
  datatype Object =
    | NoObject
    | LineObj(line: Lines.Line)
    | PointObj(point: Point)
    | PolylineObj(polyline: Polylines.Polyline)
    | PolygonObj(polygon: Polygons.Polygon)
    | CircleObj(circle: Circles.Circle)
    | MatrixObj(matrix: Matrix)
    | ColorObj(color: Color)
    | CoeffObj(coeff: real)
    | TextureObj(tex: Option<Texture>)
    | ModuleObj(id: nat)

  datatype Element = Element(kind: ObjectType, obj: Object)

  /** A module's element list, or a module whose elements were freed by
      Module_clear while its head and tail still point at them. */
  datatype Module = Live(elements: seq<Element>) | Freed

  type Store = seq<Module>

  /** A polygon Module_draw can process: Matrix_xformPolygon reads a
      normal per vertex, and Polygon_copy reads nVertex entries of every
      array the polygon has. */
  predicate Drawable(p: Polygons.Polygon)
  {
    p.normal.Some? && Polygons.ArraysCover(p)
  }

  /** The union member the tag selects is the one the payload holds. */
  predicate Carries(e: Element)
  {
    match e.kind
    case ObjLine => e.obj.LineObj?
    case ObjPoint => e.obj.PointObj?
    case ObjPolyline => e.obj.PolylineObj?
    case ObjPolygon => e.obj.PolygonObj? && Drawable(e.obj.polygon)
    case ObjCircle => e.obj.CircleObj?
    case ObjIdentity => e.obj.MatrixObj?
    case ObjMatrix => e.obj.MatrixObj?
    case ObjColor => e.obj.ColorObj?
    case ObjBodyColor => e.obj.ColorObj?
    case ObjSurfaceColor => e.obj.ColorObj?
    case ObjSurfaceCoeff => e.obj.CoeffObj?
    case ObjTexture => e.obj.TextureObj?
    case ObjModule => e.obj.ModuleObj?
    case _ => true
  }

  /** An element whose payload is right and whose sub-module, if any, is
      a live module of the store. */
  predicate ElementOk(s: Store, e: Element)
  {
    Carries(e) && (e.kind == ObjModule ==> e.obj.id < |s| && s[e.obj.id].Live?)
  }

  /** Every element of every live module is well formed. */
  predicate WellFormed(s: Store)
  {
    forall md, i :: 0 <= md < |s| && s[md].Live? && 0 <= i < |s[md].elements| ==>
      ElementOk(s, s[md].elements[i])
  }

  // ------------------------------------------------------ building modules

  /** Module_create: a new, empty module. */
  function CreateModule(s: Store): (r: (Store, nat))
    ensures var (s', md) := r;
            && |s'| == |s| + 1 && md == |s| && s'[md] == Live([])
            && s'[..|s|] == s
  {
    (s + [Live([])], |s|)
  }

  /** Module_insert: the element goes at the tail of the list. */
  function Insert(s: Store, md: nat, e: Element): (r: Store)
    requires md < |s| && s[md].Live?
    ensures |r| == |s| && r[md].Live? && |r[md].elements| == |s[md].elements| + 1
    ensures r[md].elements[..|s[md].elements|] == s[md].elements && r[md].elements[|s[md].elements|] == e
    ensures forall k :: 0 <= k < |s| && k != md ==> r[k] == s[k]
  {
    s[md := Live(s[md].elements + [e])]
  }

  /** Inserts each element in turn. */
  function InsertAll(s: Store, md: nat, es: seq<Element>): (r: Store)
    requires md < |s| && s[md].Live?
    ensures |r| == |s| && r[md].Live? && |r[md].elements| == |s[md].elements| + |es|
    decreases |es|
  {
    if es == [] then s else InsertAll(Insert(s, md, es[0]), md, es[1..])
  }

  /** Element order is insertion order: inserting a list of elements one
      by one appends exactly that list, and no other module changes. */
  lemma {:induction false} InsertAllAppends(s: Store, md: nat, es: seq<Element>)
    requires md < |s| && s[md].Live?
    ensures InsertAll(s, md, es)[md].elements == s[md].elements + es
    ensures forall k :: 0 <= k < |s| && k != md ==> InsertAll(s, md, es)[k] == s[k]
    decreases |es|
  {
    if es != [] {
      var s1 := Insert(s, md, es[0]);
      assert s1[md].elements == s[md].elements + [es[0]];
      InsertAllAppends(s1, md, es[1..]);
      assert s[md].elements + [es[0]] + es[1..] == s[md].elements + es;
    }
  }

  /** Inserting a well-formed element keeps the store well formed. */
  lemma InsertKeepsWellFormed(s: Store, md: nat, e: Element)
    requires md < |s| && s[md].Live? && WellFormed(s) && ElementOk(s, e)
    ensures WellFormed(Insert(s, md, e))
  {
    var r := Insert(s, md, e);
    forall k, i | 0 <= k < |r| && r[k].Live? && 0 <= i < |r[k].elements|
      ensures ElementOk(r, r[k].elements[i])
    {
      if k == md && i == |s[md].elements| {
        assert r[k].elements[i] == e;
      } else {
        assert r[k].elements[i] == s[k].elements[i];
      }
    }
  }

  /** Module_clear: every element is deleted, but head and tail are not
      reset, so the module is left pointing at freed memory. */
  function ClearModule(s: Store, md: nat): (r: Store)
    requires md < |s| && s[md].Live?
    ensures |r| == |s| && r[md] == Freed
    ensures forall k :: 0 <= k < |s| && k != md ==> r[k] == s[k]
  {
    s[md := Freed]
  }

  /** After Module_clear, a module that still lists the cleared one as a
      sub-module refers to freed memory: the store is no longer well
      formed. */
  lemma ClearedSubmoduleDangles(s: Store, md: nat, parent: nat, i: nat)
    requires md < |s| && s[md].Live? && parent < |s| && parent != md && s[parent].Live?
    requires i < |s[parent].elements| && s[parent].elements[i] == Element(ObjModule, ModuleObj(md))
    ensures !WellFormed(ClearModule(s, md))
  {
    var r := ClearModule(s, md);
    assert r[parent].elements[i] == Element(ObjModule, ModuleObj(md));
    assert !ElementOk(r, r[parent].elements[i]);
  }

  /** Polygon_copy into a fresh Polygon_setNULL polygon: vertices and
      flags copied, every array the source has cut to nVertex entries, no
      world arrays. */
  predicate Duplicate(from: Polygons.Polygon, to: Polygons.Polygon)
    requires Drawable(from)
  {
    var n := |from.vertex|;
    && to.vertex == from.vertex && to.zBuffer == from.zBuffer && to.oneSided == from.oneSided
    && to.normal == Some(from.normal.value[..n])
    && to.color == (if from.color.Some? then Some(from.color.value[..n]) else None)
    && to.texCoord == (if from.texCoord.Some? then Some(from.texCoord.value[..n]) else None)
    && to.wVertex.None? && to.wNormal.None?
  }

  /** Element_init: a new element holding a duplicate of the object.
      Lines, points, circles, matrices, colours and the coefficient are
      copied byte for byte; polylines and polygons are deep-copied; a
      texture or a sub-module is stored as the pointer (the ObjTexture case
      falls through into ObjModule, which writes the same pointer to the
      same union member again).  ObjNone and ObjLight store nothing.  The
      ObjSphere and ObjPlane cases fall through into copies of a whole
      Matrix from the smaller object, a read past its end, so they are
      excluded.  Polyline_setNULL leaves the copy's z-buffer flag unset;
      the model keeps the source's, and nothing reads it. */
  function ElementInit(kind: ObjectType, obj: Object): (e: Element)
    requires kind != ObjSphere && kind != ObjPlane
    requires Carries(Element(kind, obj))
    ensures e.kind == kind && Carries(e)
    ensures kind == ObjNone || kind == ObjLight ==> e.obj == NoObject
    ensures kind == ObjPolyline ==> e.obj.polyline.vertex == obj.polyline.vertex
    ensures kind == ObjPolygon ==> Duplicate(obj.polygon, e.obj.polygon)
    ensures kind !in {ObjNone, ObjLight, ObjPolyline, ObjPolygon} ==> e.obj == obj
  {
    match kind
    case ObjNone => Element(kind, NoObject)
    case ObjLight => Element(kind, NoObject)
    case ObjPolyline => Element(kind, PolylineObj(Polylines.Copy(Polylines.SetNULL(obj.polyline), obj.polyline)))
    case ObjPolygon => Element(kind, PolygonObj(Polygons.Copy(Polygons.SetNULL(), obj.polygon)))
    case _ => Element(kind, obj)
  }

  /** Module_point, Module_line, Module_polyline, Module_polygon,
      Module_circle, Module_module and Module_texture, and through
      AddAttribute the colour and coefficient adders: one new element with
      the given tag at the tail. */
  function Add(s: Store, md: nat, kind: ObjectType, obj: Object): (r: Store)
    requires md < |s| && s[md].Live?
    requires kind != ObjSphere && kind != ObjPlane && Carries(Element(kind, obj))
    ensures |r| == |s| && r[md].Live? && |r[md].elements| == |s[md].elements| + 1
    ensures r[md].elements[..|s[md].elements|] == s[md].elements
    ensures r[md].elements[|s[md].elements|].kind == kind
    ensures forall k :: 0 <= k < |s| && k != md ==> r[k] == s[k]
  {
    Insert(s, md, ElementInit(kind, obj))
  }

  /** Module_color, Module_bodyColor, Module_surfaceColor and
      Module_surfaceCoeff: the value is copied into the new element as
      given. */
  function AddAttribute(s: Store, md: nat, kind: ObjectType, obj: Object): (r: Store)
    requires md < |s| && s[md].Live?
    requires kind in {ObjColor, ObjBodyColor, ObjSurfaceColor, ObjSurfaceCoeff} && Carries(Element(kind, obj))
    ensures |r| == |s| && r[md].Live?
    ensures r[md].elements == s[md].elements + [Element(kind, obj)]
    ensures forall k :: 0 <= k < |s| && k != md ==> r[k] == s[k]
  {
    Add(s, md, kind, obj)
  }

  /** Module_identity: an ObjIdentity element carrying the identity. */
  function AddIdentity(s: Store, md: nat): (r: Store)
    requires md < |s| && s[md].Live?
    ensures |r| == |s| && r[md].Live?
    ensures r[md].elements == s[md].elements + [Element(ObjIdentity, MatrixObj(Identity()))]
  {
    Add(s, md, ObjIdentity, MatrixObj(Identity()))
  }

  // -------------------------------------------------------- matrix builders

  /** The element a matrix builder appends: the builder applied to the
      identity. */
  function StepElement(st: Step): (e: Element)
    ensures e.kind == ObjMatrix && e.obj == MatrixObj(StepMatrix(st))
  {
    IdentityUnit(StepMatrix(st));
    Element(ObjMatrix, MatrixObj(Apply(Identity(), st)))
  }

  /** Module_translate2D, Module_scale2D, Module_rotateZ, Module_translate,
      Module_scale, Module_rotateX, Module_rotateY and Module_rotateXYZ:
      one ObjMatrix element equal to the builder's own matrix. */
  function AddStep(s: Store, md: nat, st: Step): (r: Store)
    requires md < |s| && s[md].Live?
    ensures |r| == |s| && r[md].Live?
    ensures r[md].elements == s[md].elements + [Element(ObjMatrix, MatrixObj(StepMatrix(st)))]
    ensures forall k :: 0 <= k < |s| && k != md ==> r[k] == s[k]
  {
    Insert(s, md, StepElement(st))
  }

  /** Module_shear2D as written: it builds its matrix with
      Matrix_translate2D, so it appends a translation by (shx, shy). */
  function AddShear2DAsWritten(s: Store, md: nat, shx: real, shy: real): (r: Store)
    requires md < |s| && s[md].Live?
    ensures |r| == |s| && r[md].Live?
    ensures r[md].elements == s[md].elements + [Element(ObjMatrix, MatrixObj(Translate2DMatrix(shx, shy)))]
  {
    AddStep(s, md, Translate2DBy(shx, shy))
  }

  /** Module_shear2D as its name and comment intend: a shear element. */
  function AddShear2D(s: Store, md: nat, shx: real, shy: real): (r: Store)
    requires md < |s| && s[md].Live?
    ensures |r| == |s| && r[md].Live?
    ensures r[md].elements == s[md].elements + [Element(ObjMatrix, MatrixObj(Shear2DMatrix(shx, shy)))]
  {
    AddStep(s, md, Shear2DBy(shx, shy))
  }

  /** Unless both factors are 0, the matrix the written Module_shear2D
      appends moves the origin to (shx, shy), while a shear leaves the
      origin where it is. */
  lemma Shear2DAsWrittenMovesOrigin(shx: real, shy: real)
    requires shx != 0.0 || shy != 0.0
    ensures Xform(Translate2DMatrix(shx, shy), Vec4(0.0, 0.0, 0.0, 1.0)) == Vec4(shx, shy, 0.0, 1.0)
    ensures Xform(Shear2DMatrix(shx, shy), Vec4(0.0, 0.0, 0.0, 1.0)) == Vec4(0.0, 0.0, 0.0, 1.0)
  {
  }

  // ------------------------------------------------------------ Module_cube

  /** The eight corners of the unit cube centred on the origin, in the
      order Module_cube numbers them. */
  function CubeCorners(): (v: seq<Point>)
    ensures |v| == 8
  {
    [PointSet(-0.5, -0.5, -0.5), PointSet(0.5, -0.5, -0.5), PointSet(0.5, 0.5, -0.5), PointSet(-0.5, 0.5, -0.5),
     PointSet(-0.5, -0.5, 0.5), PointSet(0.5, -0.5, 0.5), PointSet(0.5, 0.5, 0.5), PointSet(-0.5, 0.5, 0.5)]
  }

  /** A corner of the unit cube: every coordinate ±1/2, w = 1. */
  predicate Corner(p: Point)
  {
    (p.x == 0.5 || p.x == -0.5) && (p.y == 0.5 || p.y == -0.5) && (p.z == 0.5 || p.z == -0.5) && p.w == 1.0
  }

  /** An edge of the unit cube: two corners that differ in exactly one
      coordinate. */
  predicate CubeEdge(l: Lines.Line)
  {
    && Corner(l.a) && Corner(l.b)
    && (if l.a.x != l.b.x then 1 else 0) + (if l.a.y != l.b.y then 1 else 0) + (if l.a.z != l.b.z then 1 else 0) == 1
  }

  /** The corner pairs Module_cube joins, in order. */
  const EdgePairs: seq<(nat, nat)> :=
    [(0, 1), (0, 3), (0, 4), (1, 2), (1, 5), (2, 3), (2, 6), (3, 7), (4, 5), (4, 7), (5, 6), (6, 7)]

  /** The twelve ObjLine elements of the wire-frame cube. */
  function CubeLines(): (es: seq<Element>)
    ensures |es| == 12
  {
    var v := CubeCorners();
    seq(12, k requires 0 <= k < 12 =>
      ElementInit(ObjLine, LineObj(Lines.LineSet(v[EdgePairs[k].0], v[EdgePairs[k].1]))))
  }

  /** The wire-frame cube is exactly the twelve edges of the cube: each
      element is a z-buffered line along an edge, and no edge repeats (a
      cube has twelve). */
  lemma CubeLinesAreTheEdges()
    ensures forall k :: 0 <= k < 12 ==>
              var e := CubeLines()[k];
              e.kind == ObjLine && e.obj.LineObj? && e.obj.line.zBuffer == 1 && CubeEdge(e.obj.line)
    ensures forall j, k :: 0 <= j < k < 12 ==>
              {CubeLines()[j].obj.line.a, CubeLines()[j].obj.line.b}
              != {CubeLines()[k].obj.line.a, CubeLines()[k].obj.line.b}
  {
    CubeLinesOnEdges();
    CubeLinesDistinct();
  }

  lemma CubeLinesOnEdges()
    ensures forall k :: 0 <= k < 12 ==>
              var e := CubeLines()[k];
              e.kind == ObjLine && e.obj.LineObj? && e.obj.line.zBuffer == 1 && CubeEdge(e.obj.line)
  {
  }

  lemma CubeLinesDistinct()
    ensures forall j, k :: 0 <= j < k < 12 ==>
              {CubeLines()[j].obj.line.a, CubeLines()[j].obj.line.b}
              != {CubeLines()[k].obj.line.a, CubeLines()[k].obj.line.b}
  {
    CubeLineMids();
    EdgeMidsDistinct();
    forall j, k | 0 <= j < k < 12
      ensures {CubeLines()[j].obj.line.a, CubeLines()[j].obj.line.b}
              != {CubeLines()[k].obj.line.a, CubeLines()[k].obj.line.b}
    {
      var lj, lk := CubeLines()[j].obj.line, CubeLines()[k].obj.line;
      if {lj.a, lj.b} == {lk.a, lk.b} {
        SameEndsSameMid(lj, lk);
      }
    }
  }

  /** Twice the midpoint of a line. */
  function Mid2(l: Lines.Line): (real, real, real)
  {
    (l.a.x + l.b.x, l.a.y + l.b.y, l.a.z + l.b.z)
  }

  /** Lines with the same two endpoints, in either order, share a
      midpoint. */
  lemma SameEndsSameMid(l1: Lines.Line, l2: Lines.Line)
    requires {l1.a, l1.b} == {l2.a, l2.b}
    ensures Mid2(l1) == Mid2(l2)
  {
    assert l1.a in {l2.a, l2.b} && l1.b in {l2.a, l2.b};
    assert l2.a in {l1.a, l1.b} && l2.b in {l1.a, l1.b};
  }

  /** Twice the midpoints of the twelve edges, in EdgePairs order. */
  const EdgeMids: seq<(real, real, real)> :=
    [(0.0, -1.0, -1.0), (-1.0, 0.0, -1.0), (-1.0, -1.0, 0.0), (1.0, 0.0, -1.0), (1.0, -1.0, 0.0), (0.0, 1.0, -1.0),
     (1.0, 1.0, 0.0), (-1.0, 1.0, 0.0), (0.0, -1.0, 1.0), (-1.0, 0.0, 1.0), (1.0, 0.0, 1.0), (0.0, 1.0, 1.0)]

  /** The wire-frame lines have the twelve edge midpoints ... */
  lemma CubeLineMids()
    ensures forall k :: 0 <= k < 12 ==> Mid2(CubeLines()[k].obj.line) == EdgeMids[k]
  {
  }

  /** ... which are distinct. */
  lemma EdgeMidsDistinct()
    ensures forall j, k :: 0 <= j < k < 12 ==> EdgeMids[j] != EdgeMids[k]
  {
  }

  /** The face normals of Module_cube: front, back, top, bottom, left,
      right. */
  const FaceNormals: seq<Vector> :=
    [VectorSet(0.0, 0.0, -1.0), VectorSet(0.0, 0.0, 1.0), VectorSet(0.0, 1.0, 0.0),
     VectorSet(0.0, -1.0, 0.0), VectorSet(-1.0, 0.0, 0.0), VectorSet(1.0, 0.0, 0.0)]

  /** The corners of each face, in the order Module_cube lists them. */
  const FaceCorners: seq<seq<nat>> :=
    [[0, 1, 2, 3], [4, 5, 6, 7], [2, 3, 7, 6], [0, 1, 5, 4], [0, 3, 7, 4], [1, 2, 6, 5]]

  /** The texture coordinates Module_cube hard-codes for textured faces. */
  const CubeTexCoords: seq<TexCoord> :=
    [TexCoord(372.0, 0.0), TexCoord(0.0, 0.0), TexCoord(0.0, 372.0), TexCoord(372.0, 372.0)]

  /** Face f as Module_cube builds it in its scratch polygon: four
      corners, four copies of the face normal, and the texture
      coordinates `st`.  Every face overwrites the vertex, normal and
      texture arrays, so the scratch polygon carries nothing over. */
  function Face(f: nat, st: seq<TexCoord>): (p: Polygons.Polygon)
    requires f < 6 && |st| == 4
    ensures |p.vertex| == 4 && Drawable(p)
  {
    var v := CubeCorners();
    var c := FaceCorners[f];
    var n := FaceNormals[f];
    Polygons.SetTexture(
      Polygons.SetNormals(Polygons.Set(Polygons.SetNULL(), 4, [v[c[0]], v[c[1]], v[c[2]], v[c[3]]]), 4, [n, n, n, n]),
      4, st)
  }

  /** The element Module_polygon makes of solid face f. */
  function FaceElement(f: nat, st: seq<TexCoord>): (e: Element)
    requires f < 6 && |st| == 4
    ensures e.kind == ObjPolygon && e.obj.PolygonObj? && Duplicate(Face(f, st), e.obj.polygon)
  {
    ElementInit(ObjPolygon, PolygonObj(Face(f, st)))
  }

  /** The elements Module_cube appends.  Solid faces come in the order
      front, back, top, bottom, left, right; with a texture array each
      face is preceded by its ObjTexture element and carries the
      hard-coded texture coordinates.  Without one, the C's misleading
      indentation still calls Polygon_setTexture, with the uninitialised
      array `st`, whose contents the model takes as `stale`. */
  function CubeElements(solid: int, tex: Option<seq<Option<Texture>>>, stale: seq<TexCoord>): (es: seq<Element>)
    requires tex.Some? ==> |tex.value| == 6
    requires |stale| == 4
  {
    if solid == 0 then CubeLines()
    else if tex.Some? then
      seq(12, k requires 0 <= k < 12 =>
        if k % 2 == 0 then ElementInit(ObjTexture, TextureObj(tex.value[k / 2]))
        else FaceElement(k / 2, CubeTexCoords))
    else
      seq(6, f requires 0 <= f < 6 => FaceElement(f, stale))
  }

  /** Module_cube. */
  function Cube(s: Store, md: nat, solid: int, tex: Option<seq<Option<Texture>>>, stale: seq<TexCoord>): (r: Store)
    requires md < |s| && s[md].Live?
    requires tex.Some? ==> |tex.value| == 6
    requires |stale| == 4
    ensures |r| == |s| && r[md].Live?
  {
    InsertAll(s, md, CubeElements(solid, tex, stale))
  }

  /** Face f's vertices and normals, spelled out. */
  lemma FaceArrays(f: nat, st: seq<TexCoord>)
    requires f < 6 && |st| == 4
    ensures var v, c, n := CubeCorners(), FaceCorners[f], FaceNormals[f];
            && Face(f, st).vertex == [v[c[0]], v[c[1]], v[c[2]], v[c[3]]]
            && Face(f, st).normal == Some([n, n, n, n])
  {
    var v, c, n := CubeCorners(), FaceCorners[f], FaceNormals[f];
    assert [v[c[0]], v[c[1]], v[c[2]], v[c[3]]][..4] == [v[c[0]], v[c[1]], v[c[2]], v[c[3]]];
    assert [n, n, n, n][..4] == [n, n, n, n];
  }

  /** Solid face f is a square on the cube's surface: its four vertices
      are corners in the plane n·p = 1/2 of its outward unit normal n, and
      all four vertex normals are n. */
  lemma FaceOnSurface(f: nat, st: seq<TexCoord>)
    requires f < 6 && |st| == 4
    ensures var p, n := Face(f, st), FaceNormals[f];
            && p.normal == Some([n, n, n, n])
            && LenSquared(n) == 1.0
            && forall i :: 0 <= i < 4 ==> Corner(p.vertex[i]) && OnFacePlane(n, p.vertex[i])
  {
    FaceArrays(f, st);
    var v, c, n := CubeCorners(), FaceCorners[f], FaceNormals[f];
    FaceCornersInPlane();
    assert CornersInPlane(f);
    assert LenSquared(n) == 1.0 by {
      if f == 0 {} else if f == 1 {} else if f == 2 {} else if f == 3 {} else if f == 4 {} else {}
    }
    forall i | 0 <= i < 4
      ensures Corner(Face(f, st).vertex[i]) && OnFacePlane(n, Face(f, st).vertex[i])
    {
      if i == 0 {} else if i == 1 {} else if i == 2 {} else {}
    }
  }

  /** p lies in the plane n·p = 1/2 of the axis-aligned unit normal n:
      along n's axis p sits half a unit out in n's direction. */
  predicate OnFacePlane(n: Vector, p: Point)
  {
    && (n.x != 0.0 ==> p.x + p.x == n.x)
    && (n.y != 0.0 ==> p.y + p.y == n.y)
    && (n.z != 0.0 ==> p.z + p.z == n.z)
  }

  /** The four corners Module_cube lists for face f are corners of the
      cube in the face's plane. */
  predicate CornersInPlane(f: nat)
    requires f < 6
  {
    var v, c, n := CubeCorners(), FaceCorners[f], FaceNormals[f];
    && Corner(v[c[0]]) && Corner(v[c[1]]) && Corner(v[c[2]]) && Corner(v[c[3]])
    && OnFacePlane(n, v[c[0]]) && OnFacePlane(n, v[c[1]])
    && OnFacePlane(n, v[c[2]]) && OnFacePlane(n, v[c[3]])
  }

  lemma FaceCornersInPlane()
    ensures forall f :: 0 <= f < 6 ==> CornersInPlane(f)
  {
    assert CornersInPlane(0) && CornersInPlane(1) && CornersInPlane(2);
    assert CornersInPlane(3) && CornersInPlane(4) && CornersInPlane(5);
  }

  /** The six faces face six different ways. */
  lemma FaceNormalsDistinct()
    ensures forall f, g :: 0 <= f < g < 6 ==> FaceNormals[f] != FaceNormals[g]
  {
  }

  /** With solid != 0 and no texture array, Module_cube appends the six
      faces as polygon elements, nothing else. */
  lemma CubeSolidPlain(s: Store, md: nat, solid: int, stale: seq<TexCoord>)
    requires md < |s| && s[md].Live?
    requires solid != 0 && |stale| == 4
    ensures var added := Cube(s, md, solid, None, stale)[md].elements[|s[md].elements|..];
            && |added| == 6
            && forall f :: 0 <= f < 6 ==>
                 added[f].kind == ObjPolygon && added[f].obj.PolygonObj?
                 && Duplicate(Face(f, stale), added[f].obj.polygon)
  {
    InsertAllAppends(s, md, CubeElements(solid, None, stale));
  }

  /** With solid != 0 and a texture array, each face's polygon element is
      preceded by an ObjTexture element for that face's texture, and the
      faces carry the hard-coded texture coordinates. */
  lemma CubeSolidTextured(s: Store, md: nat, solid: int, tex: seq<Option<Texture>>, stale: seq<TexCoord>)
    requires md < |s| && s[md].Live?
    requires solid != 0 && |tex| == 6 && |stale| == 4
    ensures var added := Cube(s, md, solid, Some(tex), stale)[md].elements[|s[md].elements|..];
            && |added| == 12
            && forall f :: 0 <= f < 6 ==>
                 && added[2 * f] == Element(ObjTexture, TextureObj(tex[f]))
                 && added[2 * f + 1].kind == ObjPolygon && added[2 * f + 1].obj.PolygonObj?
                 && Duplicate(Face(f, CubeTexCoords), added[2 * f + 1].obj.polygon)
  {
    var es := CubeElements(solid, Some(tex), stale);
    InsertAllAppends(s, md, es);
    assert Cube(s, md, solid, Some(tex), stale)[md].elements[|s[md].elements|..] == es;
    forall f | 0 <= f < 6
      ensures es[2 * f] == Element(ObjTexture, TextureObj(tex[f]))
      ensures es[2 * f + 1] == FaceElement(f, CubeTexCoords)
    {
      CubeTexturedFace(solid, tex, stale, f);
    }
  }

  /** Entries 2f and 2f + 1 of a textured solid cube are face f's texture
      element and its polygon element. */
  lemma CubeTexturedFace(solid: int, tex: seq<Option<Texture>>, stale: seq<TexCoord>, f: nat)
    requires solid != 0 && |tex| == 6 && |stale| == 4 && f < 6
    ensures var es := CubeElements(solid, Some(tex), stale);
            && |es| == 12
            && es[2 * f] == Element(ObjTexture, TextureObj(tex[f]))
            && es[2 * f + 1] == FaceElement(f, CubeTexCoords)
  {
    assert (2 * f) % 2 == 0 && (2 * f) / 2 == f;
    assert (2 * f + 1) % 2 == 1 && (2 * f + 1) / 2 == f;
  }

  /** With solid == 0, Module_cube appends exactly the wire-frame lines. */
  lemma CubeWireframe(s: Store, md: nat, tex: Option<seq<Option<Texture>>>, stale: seq<TexCoord>)
    requires md < |s| && s[md].Live?
    requires (tex.Some? ==> |tex.value| == 6) && |stale| == 4
    ensures Cube(s, md, 0, tex, stale)[md].elements == s[md].elements + CubeLines()
  {
    InsertAllAppends(s, md, CubeElements(0, tex, stale));
  }
}

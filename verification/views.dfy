/** Viewing pipelines (lib/view.c, include/cb_view.h): the 2D and 3D view
    transformation matrices, built from the Matrices builders in the
    order the C calls them.  Each builder premultiplies, so a point sees
    the transforms in that same order. */
module Views {
  import opened CNum
  import opened Geometry
  import opened Matrices

  /** A 2D view: the centre of the view rectangle, its width in world
      units, the orientation of its x axis (a normalized vector) and the
      output image size.  View2D_set stores its arguments verbatim, which
      is this constructor. */
  datatype View2D = View2D(vrp: Point, dx: real, x: Vector, screenx: int, screeny: int)

  /** A 3D view: reference point, view plane normal, up vector, centre of
      projection distance d, view window size du × dv, front and back
      clip distances f and b, and the output image size. */
  datatype View3D = View3D(vrp: Point, vpn: Vector, vup: Vector, d: real, du: real, dv: real,
                           f: real, b: real, screenx: int, screeny: int)

  /** The height of the 2D view rectangle, chosen so that the world-to-
      pixel ratio is the same in both directions. */
  function ViewHeight(v: View2D): (dy: real)
    ensures v.screenx != 0 ==> dy * (v.screenx as real) == v.dx * (v.screeny as real)
  {
    Quot(v.dx * (v.screeny as real), v.screenx as real)
  }

  /** The two scale factors of the 2D view: pixels per world unit in x,
      and the negated pixels per world unit in y (image rows grow
      downwards). */
  function ViewScale(v: View2D): (s: (real, real))
    ensures v.dx != 0.0 ==> s.0 * v.dx == v.screenx as real
  {
    (Quot(v.screenx as real, v.dx), -Quot(v.screeny as real, ViewHeight(v)))
  }

  /** With a non-degenerate view the y factor is exactly the negated x
      factor: the view does not distort, it only flips y. */
  lemma ViewScaleUniform(v: View2D)
    requires v.dx != 0.0 && v.screenx != 0 && v.screeny != 0
    ensures ViewScale(v).1 == -ViewScale(v).0
    ensures ViewScale(v).0 * v.dx == v.screenx as real
  {
    var sx, sy := v.screenx as real, v.screeny as real;
    var dy := ViewHeight(v);
    var q := Quot(sy, dy);
    assert dy != 0.0 by {
      if dy == 0.0 {
        ZeroFactor(v.dx * sy, 1.0);
        ZeroFactor(sy, v.dx);
      }
    }
    // q·dy = sy, and dy·sx = dx·sy, so q·dx·sy = sy·sx and q·dx = sx.
    assert q * dy == sy;
    assert (q * v.dx) * sy == sx * sy by {
      assert (q * v.dx) * sy == q * (v.dx * sy);
      assert q * (dy * sx) == (q * dy) * sx;
    }
    CancelFactor(q * v.dx, sx, sy);
    CancelFactor(q, Quot(sx, v.dx), v.dx);
  }

  /** Cancelling a common non-zero factor. */
  lemma CancelFactor(a: real, b: real, k: real)
    requires a * k == b * k && k != 0.0
    ensures a == b
  {
    ZeroFactor(a - b, k);
  }

  /** The builder calls of Matrix_setView2D, in order: move the view
      reference point to the origin, turn the view's x axis onto the world
      x axis, scale to pixels with y flipped, and move the origin to the
      centre of the image (the half sizes use C integer division). */
  function View2DSteps(v: View2D): seq<Step>
  {
    var s := ViewScale(v);
    [Translate2DBy(-v.vrp.x, -v.vrp.y), RotateZBy(v.x.x, -v.x.y), Scale2DBy(s.0, s.1),
     Translate2DBy(CDiv(v.screenx, 2) as real, CDiv(v.screeny, 2) as real)]
  }

  /** Matrix_setView2D: the steps applied to the identity. */
  function SetView2D(v: View2D): Matrix
  {
    ApplyAll(Identity(), View2DSteps(v))
  }

  /** Where the 2D view sends a point with w = 1: its offset from the view
      reference point, expressed along the view's x axis and the
      perpendicular to it, scaled, and shifted to the image centre. */
  lemma View2DMapsPoint(v: View2D, p: Point)
    requires p.w == 1.0
    ensures var s := ViewScale(v);
            var ox, oy := p.x - v.vrp.x, p.y - v.vrp.y;
            Xform(SetView2D(v), p)
            == Vec4(s.0 * (v.x.x * ox + v.x.y * oy) + CDiv(v.screenx, 2) as real,
                    s.1 * (v.x.x * oy - v.x.y * ox) + CDiv(v.screeny, 2) as real,
                    p.z, 1.0)
  {
    ApplyAllActs(Identity(), View2DSteps(v), p);
    XformIdentity(p);
    View2DMovesPoint(v, p);
  }

  /** The point-level half of View2DMapsPoint. */
  lemma View2DMovesPoint(v: View2D, p: Point)
    requires p.w == 1.0
    ensures var s := ViewScale(v);
            var ox, oy := p.x - v.vrp.x, p.y - v.vrp.y;
            MoveAll(p, View2DSteps(v))
            == Vec4(s.0 * (v.x.x * ox + v.x.y * oy) + CDiv(v.screenx, 2) as real,
                    s.1 * (v.x.x * oy - v.x.y * ox) + CDiv(v.screeny, 2) as real,
                    p.z, 1.0)
  {
    var s := ViewScale(v);
    FrameMoves(p, v.vrp.x, v.vrp.y, v.x.x, v.x.y, s.0, s.1, CDiv(v.screenx, 2) as real, CDiv(v.screeny, 2) as real);
  }

  /** View2DMovesPoint with every quantity a plain number. */
  lemma FrameMoves(p: Point, vx: real, vy: real, c: real, s: real, sx: real, sy: real, cx: real, cy: real)
    requires p.w == 1.0
    ensures var ox, oy := p.x - vx, p.y - vy;
            MoveAll(p, [Translate2DBy(-vx, -vy), RotateZBy(c, -s), Scale2DBy(sx, sy), Translate2DBy(cx, cy)])
            == Vec4(sx * (c * ox + s * oy) + cx, sy * (c * oy - s * ox) + cy, p.z, 1.0)
  {
    var q1 := Vec4(p.x - vx, p.y - vy, p.z, 1.0);
    var q2 := Vec4(c * q1.x + s * q1.y, c * q1.y - s * q1.x, p.z, 1.0);
    var q3 := Vec4(sx * q2.x, sy * q2.y, p.z, 1.0);
    var q4 := Vec4(q3.x + cx, q3.y + cy, p.z, 1.0);
    TranslateUnitPoint(p, -vx, -vy);
    RotateByAxis(q1, c, s);
    assert Move(q2, Scale2DBy(sx, sy)) == q3;
    TranslateUnitPoint(q3, cx, cy);
    MoveAllChain4(p, Translate2DBy(-vx, -vy), RotateZBy(c, -s), Scale2DBy(sx, sy), Translate2DBy(cx, cy), q1, q2, q3, q4);
  }

  /** A 2D translation of a point with w = 1 adds the offsets. */
  lemma TranslateUnitPoint(q: Vec4, tx: real, ty: real)
    requires q.w == 1.0
    ensures Move(q, Translate2DBy(tx, ty)) == Vec4(q.x + tx, q.y + ty, q.z, 1.0)
  {
  }

  /** Rotating by the angle whose cosine and sine are c and -s. */
  lemma RotateByAxis(q: Vec4, c: real, s: real)
    ensures Move(q, RotateZBy(c, -s)) == Vec4(c * q.x + s * q.y, c * q.y - s * q.x, q.z, q.w)
  {
  }

  /** The view reference point lands on the centre pixel of the image. */
  lemma View2DCentersVrp(v: View2D)
    requires v.vrp.w == 1.0
    ensures Xform(SetView2D(v), v.vrp)
            == Vec4(CDiv(v.screenx, 2) as real, CDiv(v.screeny, 2) as real, v.vrp.z, 1.0)
  {
    View2DMapsPoint(v, v.vrp);
  }

  /** The view reference coordinate axes before normalization: u is
      vup × vpn, and the up vector is recomputed as vpn × u.  The C leaves
      u's w uninitialised; it is 0 here, and the axis alignment ignores w
      anyway. */
  datatype Axes = Axes(u: Vector, vup: Vector, vpn: Vector)

  function ViewAxes(v: View3D): (a: Axes)
    ensures Dot(a.u, a.vpn) == 0.0 && Dot(a.vup, a.vpn) == 0.0 && Dot(a.vup, a.u) == 0.0
    ensures a.vpn == v.vpn
  {
    var u := Cross(v.vup, v.vpn, 0.0);
    Axes(u, Cross(v.vpn, u, v.vup.w), v.vpn)
  }

  /** The normalized axes Matrix_setView3D aligns with: still mutually
      orthogonal. */
  function UnitAxes(m: Libm, v: View3D): (a: Axes)
    ensures Dot(a.u, a.vpn) == 0.0 && Dot(a.vup, a.vpn) == 0.0 && Dot(a.vup, a.u) == 0.0
  {
    var raw := ViewAxes(v);
    NormalizeKeepsOrthogonal(m, raw.u, raw.vpn);
    NormalizeKeepsOrthogonal(m, raw.vup, raw.vpn);
    NormalizeKeepsOrthogonal(m, raw.vup, raw.u);
    Axes(Normalize(m, raw.u), Normalize(m, raw.vup), Normalize(m, raw.vpn))
  }

  /** The back clip distance measured from the centre of projection. */
  function BackDistance(v: View3D): real
  {
    v.d + v.b
  }

  /** The focal length after the canonical view volume is scaled so that
      the back clip plane is at depth 1. */
  function ScaledFocal(v: View3D): (d: real)
    ensures BackDistance(v) != 0.0 ==> d * BackDistance(v) == v.d
  {
    Quot(v.d, BackDistance(v))
  }

  /** The first builder calls of Matrix_setView3D: reference point to the
      origin, axes aligned, centre of projection to the origin, canonical
      view volume (back clip plane at depth 1). */
  function CanonicalSteps(m: Libm, v: View3D): seq<Step>
  {
    var a := UnitAxes(m, v);
    var b := BackDistance(v);
    [TranslateBy(-v.vrp.x, -v.vrp.y, -v.vrp.z), RotateXYZBy(a.u, a.vup, a.vpn),
     TranslateBy(0.0, 0.0, v.d), ScaleBy(Quot(2.0 * v.d, b * v.du), Quot(2.0 * v.d, b * v.dv), Quot(1.0, b))]
  }

  /** The last builder calls of Matrix_setView3D: the perspective
      projection with the scaled focal length, the scale to pixels with
      both axes negated (the int screen size is divided as a double) and
      the shift to the image centre (integer halves). */
  function ProjectionSteps(v: View3D): seq<Step>
  {
    var d := ScaledFocal(v);
    [PerspectiveBy(d), Scale2DBy(Quot(-(v.screenx as real), 2.0 * d), Quot(-(v.screeny as real), 2.0 * d)),
     Translate2DBy(CDiv(v.screenx, 2) as real, CDiv(v.screeny, 2) as real)]
  }

  /** Matrix_setView3D: all the steps applied to the identity. */
  function SetView3D(m: Libm, v: View3D): Matrix
  {
    ApplyAll(Identity(), CanonicalSteps(m, v) + ProjectionSteps(v))
  }

  /** The canonical view puts the view reference point on the z axis at
      the scaled focal length. */
  lemma CanonicalVrp(m: Libm, v: View3D)
    requires v.vrp.w == 1.0 && BackDistance(v) != 0.0
    ensures MoveAll(v.vrp, CanonicalSteps(m, v)) == Vec4(0.0, 0.0, ScaledFocal(v), 1.0)
  {
    var steps := CanonicalSteps(m, v);
    MoveAllUnroll4(v.vrp, steps);
    var q1 := Move(v.vrp, steps[0]);
    assert q1 == Vec4(0.0, 0.0, 0.0, 1.0);
    var q2 := Move(q1, steps[1]);
    assert q2 == q1;
    var q3 := Move(q2, steps[2]);
    assert q3 == Vec4(0.0, 0.0, v.d, 1.0);
    OneOver(BackDistance(v), v.d);
  }

  /** (1 / b) · d is d / b. */
  lemma OneOver(b: real, d: real)
    requires b != 0.0
    ensures Quot(1.0, b) * d == Quot(d, b)
  {
  }

  /** The 3D view sends the view reference point to the centre pixel of
      the image, at depth d / (d + b) and with w = 1, when the centre of
      projection is off the view plane and the back clip distance from it
      is non-zero. */
  lemma View3DCentersVrp(m: Libm, v: View3D)
    requires v.vrp.w == 1.0 && v.d != 0.0 && BackDistance(v) != 0.0
    ensures Xform(SetView3D(m, v), v.vrp)
            == Vec4(CDiv(v.screenx, 2) as real, CDiv(v.screeny, 2) as real, ScaledFocal(v), 1.0)
  {
    ApplyAllActs(Identity(), CanonicalSteps(m, v) + ProjectionSteps(v), v.vrp);
    XformIdentity(v.vrp);
    MoveAllAppend(v.vrp, CanonicalSteps(m, v), ProjectionSteps(v));
    CanonicalVrp(m, v);
    ProjectionOfFocalPoint(v);
  }

  /** The projection steps send the point (0, 0, d / (d + b), 1) to the
      image centre, keeping its depth and w = 1. */
  lemma ProjectionOfFocalPoint(v: View3D)
    requires v.d != 0.0 && BackDistance(v) != 0.0
    ensures var d := ScaledFocal(v);
            MoveAll(Vec4(0.0, 0.0, d, 1.0), ProjectionSteps(v))
            == Vec4(CDiv(v.screenx, 2) as real, CDiv(v.screeny, 2) as real, d, 1.0)
  {
    var d := ScaledFocal(v);
    var steps := ProjectionSteps(v);
    MoveAllUnroll3(Vec4(0.0, 0.0, d, 1.0), steps);
    assert d * BackDistance(v) == v.d;
    assert Quot(1.0, d) * d == 1.0;
    var q1 := Move(Vec4(0.0, 0.0, d, 1.0), steps[0]);
    assert q1 == Vec4(0.0, 0.0, d, 1.0);
  }
}

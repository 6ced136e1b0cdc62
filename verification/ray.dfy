/** The ray tracer (lib/ray.c, include/cb_ray.h): rays, plane and sphere
    intersection, the nearest-hit search, shadow rays to the lights,
    reflection, and Ray_trace's combination of the colours.

    The C keeps the light list and the scene in the globals global_light
    and global_rayModule; here they are parameters (`lights`, `es`), as
    is the `Libm` whose sqrt Vector_normalize, Point_dist and the sphere
    test call. */
module Rays {
  import opened CNum
  import opened Colors
  import opened Geometry
  import opened RayObjects
  import opened RayModules
  import Lighting

  datatype Ray = Ray(p: Point, v: Vector)

  /** What an intersection test hands back: the point and the normal
      there. */
  datatype Hit = Hit(p: Point, nor: Vector)

  /** An Intersection: point, normal, and the element hit (its index in
      the scene list). */
  datatype Intersection = Intersection(p: Point, nor: Vector, e: nat)

  /** Ray_set: the origin verbatim and the direction normalised. */
  function RaySet(m: Libm, p: Point, v: Vector): (r: Ray)
    ensures r.p == p && r.v == Normalize(m, v)
  {
    Ray(p, Normalize(m, v))
  }

  /** Intersection_set: point and normal; the element is left alone. */
  function IntersectionSet(i: Intersection, p: Point, nor: Vector): (r: Intersection)
    ensures r.p == p && r.nor == nor && r.e == i.e
  {
    i.(p := p, nor := nor)
  }

  /** Intersection_copy: point and normal only; the destination keeps
      its own element. */
  function IntersectionCopy(to: Intersection, from: Intersection): (r: Intersection)
    ensures r.p == from.p && r.nor == from.nor && r.e == to.e
    ensures r == IntersectionSet(to, from.p, from.nor)
  {
    Intersection(from.p, from.nor, to.e)
  }

  /** addColors: per channel, the point colour plus the reflected value
      weighted by the reflection coefficient plus the refracted value
      weighted by the FIRST channel of the refraction coefficient. */
  function AddColors(pointC: Color, reflectV: Color, coeffReflect: Color,
                     refractV: Color, coeffRefract: Color): (c: Color)
  {
    ColorSum(ColorSum(pointC, Mul(reflectV, coeffReflect)), ScaleBy(refractV, coeffRefract.r))
  }

  /** The refraction weight is one number for all three channels, and
      with nothing reflected or refracted the point colour is returned. */
  lemma AddColorsChannels(pointC: Color, reflectV: Color, coeffReflect: Color,
                          refractV: Color, coeffRefract: Color, g: real, b: real)
    ensures AddColors(pointC, reflectV, coeffReflect, refractV, coeffRefract)
            == AddColors(pointC, reflectV, coeffReflect, refractV, coeffRefract.(g := g, b := b))
    ensures AddColors(pointC, reflectV, coeffReflect, refractV, coeffRefract)
            == ColorSum(ColorSum(pointC, Mul(reflectV, coeffReflect)), ScaleBy(refractV, coeffRefract.r))
    ensures AddColors(pointC, Black, coeffReflect, Black, coeffRefract) == pointC
  {
    assert coeffRefract.(g := g, b := b).r == coeffRefract.r;
    var m0, s0 := Mul(Black, coeffReflect), ScaleBy(Black, coeffRefract.r);
    assert m0.r == 0.0 * coeffReflect.r && m0.g == 0.0 * coeffReflect.g && m0.b == 0.0 * coeffReflect.b;
    assert s0.r == 0.0 * coeffRefract.r && s0.g == 0.0 * coeffRefract.r && s0.b == 0.0 * coeffRefract.r;
    assert m0 == Black && s0 == Black;
    ColorSumMonoid(pointC, Black, Black);
  }

  /** The point t units along the ray (Point_set, so w = 1). */
  function At(ray: Ray, t: real): (q: Point)
  {
    PointSet(ray.p.x + ray.v.x * t, ray.p.y + ray.v.y * t, ray.p.z + ray.v.z * t)
  }

  // ------------------------------------------------------ planes

  /** A·v: how fast the ray runs along the plane normal (v_out). */
  function Approach(pl: Plane, v: Vector): real
  {
    pl.a * v.x + pl.b * v.y + pl.c * v.z
  }

  /** A·p + D: the plane equation at p, zero exactly on the plane. */
  function Offset(pl: Plane, p: Point): real
  {
    pl.a * p.x + pl.b * p.y + pl.c * p.z + pl.d
  }

  /** Ray_planeIntersect: no hit for a ray parallel to the plane, for one
      meeting its back when singleSide is 1, or for a crossing behind the
      origin; otherwise the crossing point, with the plane normal turned
      to face the ray. */
  function PlaneIntersect(ray: Ray, pl: Plane, singleSide: int): (r: Option<Hit>)
  {
    var vOut := Approach(pl, ray.v);
    if vOut == 0.0 || (vOut > 0.0 && singleSide == 1) then None
    else
      var t := -Offset(pl, ray.p) / vOut;
      if t < 0.0 then None
      else
        var n := if vOut < 0.0 then VectorSet(pl.a, pl.b, pl.c) else VectorSet(-pl.a, -pl.b, -pl.c);
        Some(Hit(At(ray, t), n))
  }

  /** Moving t along the ray changes the plane equation by t·(A·v). */
  lemma OffsetAlong(pl: Plane, ray: Ray, t: real)
    ensures Offset(pl, At(ray, t)) == Offset(pl, ray.p) + t * Approach(pl, ray.v)
  {
    assert pl.a * (ray.p.x + ray.v.x * t) == pl.a * ray.p.x + t * (pl.a * ray.v.x);
    assert pl.b * (ray.p.y + ray.v.y * t) == pl.b * ray.p.y + t * (pl.b * ray.v.y);
    assert pl.c * (ray.p.z + ray.v.z * t) == pl.c * ray.p.z + t * (pl.c * ray.v.z);
  }

  /** For a ray not parallel to the plane, with t the one parameter at
      which it meets the plane: Ray_planeIntersect reports a hit exactly
      when t ≥ 0 and the plane is not culled, the hit is that point, and
      its normal is ± (A, B, C) pointing against the ray. */
  lemma PlaneHitExactly(ray: Ray, pl: Plane, singleSide: int, t: real)
    requires Approach(pl, ray.v) != 0.0
    requires Offset(pl, At(ray, t)) == 0.0
    ensures var r := PlaneIntersect(ray, pl, singleSide);
            && (r.Some? <==> t >= 0.0 && !(Approach(pl, ray.v) > 0.0 && singleSide == 1))
            && (r.Some? ==> r.value.p == At(ray, t) && Offset(pl, r.value.p) == 0.0
                            && Dot(r.value.nor, ray.v) < 0.0 && r.value.nor.w == 0.0
                            && (r.value.nor == VectorSet(pl.a, pl.b, pl.c)
                                || r.value.nor == VectorSet(-pl.a, -pl.b, -pl.c)))
  {
    var vOut := Approach(pl, ray.v);
    OffsetAlong(pl, ray, t);
    assert t * vOut == -Offset(pl, ray.p);
    assert t == -Offset(pl, ray.p) / vOut;
    var n := if vOut < 0.0 then VectorSet(pl.a, pl.b, pl.c) else VectorSet(-pl.a, -pl.b, -pl.c);
    assert Dot(n, ray.v) == if vOut < 0.0 then vOut else -vOut;
  }

  // ------------------------------------------------------ spheres

  /** c − p, from the ray origin to the centre (distRtoS). */
  function ToCentre(ray: Ray, s: Sphere): Vector
  {
    VectorSet(s.center.x - ray.p.x, s.center.y - ray.p.y, s.center.z - ray.p.z)
  }

  /** r² − |c − p|² + ((c − p)·v)²: the squared half chord. */
  function HalfChord2(ray: Ray, s: Sphere): real
  {
    var d := ToCentre(ray, s);
    s.radius * s.radius - LenSquared(d) + Dot(d, ray.v) * Dot(d, ray.v)
  }

  /** Ray_sphereIntersect: no hit when the origin is outside (or on) the
      sphere and the ray points away, when the squared half chord is
      negative, or when the distance found is exactly 0; otherwise the
      near crossing from outside, the far one from inside, with the
      normal (q − c)/r. */
  function SphereIntersect(m: Libm, ray: Ray, s: Sphere): (r: Option<Hit>)
  {
    if SphereAway(ray, s) || HalfChord2(ray, s) < 0.0 then None
    else
      var t := SphereDist(m, ray, s);
      if t == 0.0 then None
      else Some(Hit(At(ray, t), SphereNormal(At(ray, t), s)))
  }

  /** The origin is outside or on the sphere and the ray points away. */
  predicate SphereAway(ray: Ray, s: Sphere)
  {
    var d := ToCentre(ray, s);
    Dot(d, ray.v) < 0.0 && LenSquared(d) >= s.radius * s.radius
  }

  /** The distance along the ray to the crossing: (c − p)·v minus the half
      chord from outside (or on) the sphere, plus it from inside. */
  function SphereDist(m: Libm, ray: Ray, s: Sphere): real
  {
    var d := ToCentre(ray, s);
    var close := Dot(d, ray.v);
    var sq := m.sqrt(HalfChord2(ray, s));
    if LenSquared(d) >= s.radius * s.radius then close - sq else close + sq
  }

  /** (q − c)/r, coordinate by coordinate. */
  function SphereNormal(q: Point, s: Sphere): Vector
  {
    VectorSet(Quot(q.x - s.center.x, s.radius), Quot(q.y - s.center.y, s.radius), Quot(q.z - s.center.z, s.radius))
  }

  /** A square root that is exact, and non-negative, at x. */
  predicate SqrtExact(m: Libm, x: real)
  {
    m.sqrt(x) >= 0.0 && m.sqrt(x) * m.sqrt(x) == x
  }

  /** |q − c|², the squared distance of q from the centre. */
  function FromCentre2(q: Point, s: Sphere): real
  {
    LenSquared(VectorSet(q.x - s.center.x, q.y - s.center.y, q.z - s.center.z))
  }

  /** The squared distance from the centre of the point t along a unit
      ray: t² − 2t·close + d², with close = (c − p)·v and d² = |c − p|². */
  lemma AlongFromCentre(ray: Ray, s: Sphere, t: real, close: real, d2: real)
    requires LenSquared(ray.v) == 1.0
    requires close == Dot(ToCentre(ray, s), ray.v) && d2 == LenSquared(ToCentre(ray, s))
    ensures FromCentre2(At(ray, t), s) == t * t - 2.0 * t * close + d2
  {
    var p, v, c := ray.p, ray.v, s.center;
    AlongReal(p.x, p.y, p.z, v.x, v.y, v.z, c.x, c.y, c.z, t, close, d2);
  }

  /** AlongFromCentre coordinate by coordinate, for origin p, unit
      direction v and centre c, with close = (c − p)·v and d² = |c − p|². */
  lemma AlongReal(px: real, py: real, pz: real, vx: real, vy: real, vz: real,
                  cx: real, cy: real, cz: real, t: real, close: real, d2: real)
    requires SumSq3(vx, vy, vz) == 1.0
    requires close == (cx - px) * vx + (cy - py) * vy + (cz - pz) * vz
    requires d2 == SumSq3(cx - px, cy - py, cz - pz)
    ensures SumSq3(px + vx * t - cx, py + vy * t - cy, pz + vz * t - cz) == t * t - 2.0 * t * close + d2
  {
    AlongSq(vx, cx - px, t);
    AlongSq(vy, cy - py, t);
    AlongSq(vz, cz - pz, t);
    assert (vx * vx + vy * vy + vz * vz) * (t * t) == t * t;
  }

  /** One coordinate of AlongReal. */
  lemma AlongSq(v: real, d: real, t: real)
    ensures (v * t - d) * (v * t - d) == (v * v) * (t * t) - 2.0 * t * (d * v) + d * d
  {
  }

  /** t ± s with s² the squared half chord lands on the sphere: a point
      whose squared distance from the centre is t² − 2t·close + d² is at
      distance r from it. */
  lemma ChordLands(dist2: real, close: real, d2: real, r2: real, sq: real, t: real)
    requires dist2 == t * t - 2.0 * t * close + d2
    requires sq * sq == r2 - d2 + close * close
    requires t == close - sq || t == close + sq
    ensures dist2 == r2
  {
    assert (t - close) * (t - close) == sq * sq;
  }

  /** A hit is the point SphereDist along the ray, and the test passed
      both early exits. */
  lemma SphereHitShape(m: Libm, ray: Ray, s: Sphere, h: Hit)
    requires SphereIntersect(m, ray, s) == Some(h)
    ensures !SphereAway(ray, s) && HalfChord2(ray, s) >= 0.0 && SphereDist(m, ray, s) != 0.0
    ensures h == Hit(At(ray, SphereDist(m, ray, s)), SphereNormal(At(ray, SphereDist(m, ray, s)), s))
  {
  }

  /** With an exact, non-negative square root, a hit lies strictly ahead
      of the ray origin. */
  lemma SphereHitAhead(m: Libm, ray: Ray, s: Sphere, h: Hit)
    requires SphereIntersect(m, ray, s) == Some(h) && SqrtExact(m, HalfChord2(ray, s))
    ensures SphereDist(m, ray, s) > 0.0 && h.p == At(ray, SphereDist(m, ray, s))
  {
    SphereHitShape(m, ray, s, h);
    SphereDistAhead(m, ray, s);
  }

  /** Past the first early exit, and with an exact square root, the
      distance SphereDist picks is not behind the origin. */
  lemma SphereDistAhead(m: Libm, ray: Ray, s: Sphere)
    requires !SphereAway(ray, s) && SqrtExact(m, HalfChord2(ray, s))
    ensures SphereDist(m, ray, s) >= 0.0
  {
    var d := ToCentre(ray, s);
    var close, d2, sq := Dot(d, ray.v), LenSquared(d), m.sqrt(HalfChord2(ray, s));
    HalfChordRoot(m, ray, s, close, d2, sq);
    ChordAhead(close, d2, s.radius * s.radius, sq, SphereDist(m, ray, s));
  }

  /** The root of the squared half chord, squared, in terms of
      close = (c − p)·v and d² = |c − p|². */
  lemma HalfChordRoot(m: Libm, ray: Ray, s: Sphere, close: real, d2: real, sq: real)
    requires SqrtExact(m, HalfChord2(ray, s)) && sq == m.sqrt(HalfChord2(ray, s))
    requires close == Dot(ToCentre(ray, s), ray.v) && d2 == LenSquared(ToCentre(ray, s))
    ensures sq >= 0.0 && sq * sq == s.radius * s.radius - d2 + close * close
  {
  }

  /** With a unit ray direction and an exact square root, a hit lies on
      the sphere. */
  lemma SphereHitOnSurface(m: Libm, ray: Ray, s: Sphere, h: Hit)
    requires SphereIntersect(m, ray, s) == Some(h)
    requires LenSquared(ray.v) == 1.0 && SqrtExact(m, HalfChord2(ray, s))
    ensures FromCentre2(h.p, s) == s.radius * s.radius
  {
    SphereHitShape(m, ray, s, h);
    var d := ToCentre(ray, s);
    var close, d2, sq := Dot(d, ray.v), LenSquared(d), m.sqrt(HalfChord2(ray, s));
    HalfChordRoot(m, ray, s, close, d2, sq);
    assert SphereDist(m, ray, s) == close - sq || SphereDist(m, ray, s) == close + sq;
    OnSphereAt(ray, s, SphereDist(m, ray, s), close, d2, sq);
  }

  /** A unit ray meets the sphere at (c − p)·v ± s when s² is the squared
      half chord r² − |c − p|² + ((c − p)·v)². */
  lemma OnSphereAt(ray: Ray, s: Sphere, t: real, close: real, d2: real, sq: real)
    requires LenSquared(ray.v) == 1.0
    requires close == Dot(ToCentre(ray, s), ray.v) && d2 == LenSquared(ToCentre(ray, s))
    requires sq * sq == s.radius * s.radius - d2 + close * close
    requires t == close - sq || t == close + sq
    ensures FromCentre2(At(ray, t), s) == s.radius * s.radius
  {
    AlongFromCentre(ray, s, t, close, d2);
    ChordLands(FromCentre2(At(ray, t), s), close, d2, s.radius * s.radius, sq, t);
  }

  /** ... and for a non-zero radius the normal there has unit length. */
  lemma SphereHitNormal(m: Libm, ray: Ray, s: Sphere, h: Hit)
    requires SphereIntersect(m, ray, s) == Some(h)
    requires LenSquared(ray.v) == 1.0 && SqrtExact(m, HalfChord2(ray, s))
    requires s.radius != 0.0
    ensures LenSquared(h.nor) == 1.0
  {
    SphereHitOnSurface(m, ray, s, h);
    SphereHitShape(m, ray, s, h);
    SurfaceNormalUnit(h.p, s, h.nor);
  }

  /** At a point of a sphere of non-zero radius, (q − c)/r has unit
      length. */
  lemma SurfaceNormalUnit(q: Point, s: Sphere, nor: Vector)
    requires FromCentre2(q, s) == s.radius * s.radius
    requires s.radius != 0.0 && nor == SphereNormal(q, s)
    ensures LenSquared(nor) == 1.0
  {
    UnitQuot(q.x - s.center.x, q.y - s.center.y, q.z - s.center.z, s.radius);
  }

  /** (x, y, z)/ρ with x² + y² + z² = ρ², ρ ≠ 0, has unit length. */
  lemma UnitQuot(x: real, y: real, z: real, rho: real)
    requires SumSq3(x, y, z) == rho * rho && rho != 0.0
    ensures SumSq3(Quot(x, rho), Quot(y, rho), Quot(z, rho)) == 1.0
  {
    calc {
      SumSq3(x, y, z);
      == rho * rho;
      > { SquareNonNeg(rho); }
      0.0;
    }
    var a, b, c := Quot(x, rho), Quot(y, rho), Quot(z, rho);
    ScaledSq(a, b, c, rho, x, y, z);
    assert NormalSq(x, y, z) == SumSq3(x, y, z);
    assert NormalSq(a, b, c) == SumSq3(a, b, c);
    Cancel(NormalSq(a, b, c), rho, SumSq3(x, y, z));
  }

  /** Where the sphere test does not return early, the distance it picks
      (close − sq from outside, close + sq from inside) is non-negative,
      and positive from inside. */
  lemma ChordAhead(close: real, d2: real, r2: real, sq: real, dist: real)
    requires sq >= 0.0 && sq * sq == r2 - d2 + close * close
    requires !(close < 0.0 && d2 >= r2)
    requires dist == if d2 >= r2 then close - sq else close + sq
    ensures dist >= 0.0 && (d2 < r2 ==> dist > 0.0)
  {
    if d2 >= r2 {
      SquaresOrdered(close, sq);
    } else if close >= 0.0 {
      SquareNonNeg(sq);
    } else {
      SquaresOrdered(sq, -close);
    }
  }

  /** For non-negative a and b, the order of the squares is the order
      of a and b. */
  lemma SquaresOrdered(a: real, b: real)
    requires a >= 0.0 && b >= 0.0
    ensures b * b <= a * a ==> b <= a
    ensures b * b < a * a ==> b < a
  {
    if b > a {
      PosProduct(b - a, b + a);
      assert b * b - a * a == (b - a) * (b + a);
    }
  }

  lemma PosProduct(x: real, y: real)
    requires x > 0.0 && y > 0.0
    ensures x * y > 0.0
  {
  }

  /** The two early exits are real misses: with a unit direction, when
      the ray starts outside and points away, or the squared half chord
      is negative, no point strictly ahead lies on the sphere. */
  lemma SphereMissIsMiss(ray: Ray, s: Sphere, t: real)
    requires LenSquared(ray.v) == 1.0 && t > 0.0
    requires SphereAway(ray, s) || HalfChord2(ray, s) < 0.0
    ensures FromCentre2(At(ray, t), s) != s.radius * s.radius
  {
    var d := ToCentre(ray, s);
    var close, d2, r2 := Dot(d, ray.v), LenSquared(d), s.radius * s.radius;
    assert (close < 0.0 && d2 >= r2) || r2 - d2 + close * close < 0.0;
    AlongFromCentre(ray, s, t, close, d2);
    MissArith(FromCentre2(At(ray, t), s), t, close, d2, r2);
  }

  /** The arithmetic of SphereMissIsMiss: t² − 2t·close + d² stays off
      r² for t > 0 in either case. */
  lemma MissArith(dist2: real, t: real, close: real, d2: real, r2: real)
    requires dist2 == t * t - 2.0 * t * close + d2 && t > 0.0
    requires (close < 0.0 && d2 >= r2) || r2 - d2 + close * close < 0.0
    ensures dist2 != r2
  {
    assert t * t - 2.0 * t * close == (t - close) * (t - close) - close * close;
    if close < 0.0 && d2 >= r2 {
      assert t * t > 0.0;
      assert t * (-close) > 0.0;
    } else {
      SquareNonNeg(t - close);
    }
  }

  // ------------------------------------------------------ the scene

  /** Every element's payload is what its tag says. */
  predicate AllTagged(es: seq<RayElement>)
  {
    forall k :: 0 <= k < |es| ==> Tagged(es[k])
  }

  /** Ray_intersect: planes are tested one-sided, spheres as spheres,
      anything else is never hit. */
  function Intersect(m: Libm, ray: Ray, e: RayElement): (r: Option<Hit>)
    requires Tagged(e)
    ensures e.rtype.RayObjOther? ==> r.None?
  {
    match e.rtype
    case RayObjPlane => PlaneIntersect(ray, e.obj.plane, 1)
    case RayObjSphere => SphereIntersect(m, ray, e.obj.sphere)
    case RayObjOther(_) => None
  }

  /** 10e10: trace keeps only hits nearer than this. */
  const Far: real := 100000000000.0

  /** Whether element k is hit, and the eye's distance to the hit. */
  predicate Hits(m: Libm, es: seq<RayElement>, ray: Ray, k: int)
    requires AllTagged(es)
  {
    0 <= k < |es| && Intersect(m, ray, es[k]).Some?
  }

  function HitDist(m: Libm, es: seq<RayElement>, ray: Ray, eye: Point, k: int): real
    requires AllTagged(es) && Hits(m, es, ray, k)
  {
    PointDist(m, eye, Intersect(m, ray, es[k]).value.p)
  }

  /** What the search loop knows after elements 0 .. i−1: minDist is at
      most every distance seen, and `best` is the first element at that
      distance, or nothing with minDist still 10e10. */
  predicate ScanInv(m: Libm, es: seq<RayElement>, ray: Ray, eye: Point, i: int, minDist: real,
                    best: Option<Intersection>)
    requires AllTagged(es)
  {
    && 0 <= i <= |es|
    && (forall j :: 0 <= j < i && Hits(m, es, ray, j) ==> minDist <= HitDist(m, es, ray, eye, j))
    && (best.None? ==> minDist == Far)
    && (best.Some? ==>
          && best.value.e < i && Hits(m, es, ray, best.value.e)
          && Intersect(m, ray, es[best.value.e]).value == Hit(best.value.p, best.value.nor)
          && HitDist(m, es, ray, eye, best.value.e) == minDist && minDist < Far
          && forall j :: 0 <= j < best.value.e && Hits(m, es, ray, j) ==> minDist < HitDist(m, es, ray, eye, j))
  }

  /** What trace returns, as a property of the whole list: nothing when
      no hit is nearer than 10e10, else the nearest hit, the first one
      among equals. */
  predicate Nearest(m: Libm, es: seq<RayElement>, ray: Ray, eye: Point, r: Option<Intersection>)
    requires AllTagged(es)
  {
    && (r.None? <==> forall k :: 0 <= k < |es| && Hits(m, es, ray, k) ==> HitDist(m, es, ray, eye, k) >= Far)
    && (r.Some? ==>
          && Hits(m, es, ray, r.value.e)
          && Intersect(m, ray, es[r.value.e]).value == Hit(r.value.p, r.value.nor)
          && HitDist(m, es, ray, eye, r.value.e) < Far
          && (forall j :: 0 <= j < |es| && Hits(m, es, ray, j) ==> HitDist(m, es, ray, eye, r.value.e) <= HitDist(m, es, ray, eye, j))
          && (forall j :: 0 <= j < r.value.e && Hits(m, es, ray, j) ==> HitDist(m, es, ray, eye, r.value.e) < HitDist(m, es, ray, eye, j)))
  }

  /** The element loop of trace (and of Ray_trace) from element i on:
      a hit replaces the best one only when strictly nearer. */
  function Scan(m: Libm, es: seq<RayElement>, ray: Ray, eye: Point, i: nat, minDist: real,
                best: Option<Intersection>): (r: Option<Intersection>)
    requires AllTagged(es) && ScanInv(m, es, ray, eye, i, minDist, best)
    ensures Nearest(m, es, ray, eye, r)
    ensures r.Some? ==> r.value.e < |es|
    decreases |es| - i
  {
    if i == |es| then
      ScanDone(m, es, ray, eye, minDist, best);
      if minDist < Far then best else None
    else
      match Intersect(m, ray, es[i])
      case None =>
        ScanSkip(m, es, ray, eye, i, minDist, best);
        Scan(m, es, ray, eye, i + 1, minDist, best)
      case Some(h) =>
        var d := PointDist(m, eye, h.p);
        if d < minDist then
          ScanTake(m, es, ray, eye, i, minDist, best);
          Scan(m, es, ray, eye, i + 1, d, Some(Intersection(h.p, h.nor, i)))
        else
          ScanSkip(m, es, ray, eye, i, minDist, best);
          Scan(m, es, ray, eye, i + 1, minDist, best)
  }

  /** An element that is missed, or hit no nearer than the best so far,
      leaves the search's facts true one element on. */
  lemma ScanSkip(m: Libm, es: seq<RayElement>, ray: Ray, eye: Point, i: nat, minDist: real,
                 best: Option<Intersection>)
    requires AllTagged(es) && ScanInv(m, es, ray, eye, i, minDist, best) && i < |es|
    requires Hits(m, es, ray, i) ==> HitDist(m, es, ray, eye, i) >= minDist
    ensures ScanInv(m, es, ray, eye, i + 1, minDist, best)
  {
  }

  /** A strictly nearer hit becomes the best one. */
  lemma ScanTake(m: Libm, es: seq<RayElement>, ray: Ray, eye: Point, i: nat, minDist: real,
                 best: Option<Intersection>)
    requires AllTagged(es) && ScanInv(m, es, ray, eye, i, minDist, best) && i < |es|
    requires Hits(m, es, ray, i) && HitDist(m, es, ray, eye, i) < minDist
    ensures var h := Intersect(m, ray, es[i]).value;
            ScanInv(m, es, ray, eye, i + 1, HitDist(m, es, ray, eye, i), Some(Intersection(h.p, h.nor, i)))
  {
  }

  /** After the last element the best hit, if nearer than 10e10, is the
      nearest one. */
  lemma ScanDone(m: Libm, es: seq<RayElement>, ray: Ray, eye: Point, minDist: real, best: Option<Intersection>)
    requires AllTagged(es) && ScanInv(m, es, ray, eye, |es|, minDist, best)
    ensures Nearest(m, es, ray, eye, if minDist < Far then best else None)
  {
  }

  /** trace: the nearest hit of the ray among all elements. */
  function Trace(m: Libm, es: seq<RayElement>, ray: Ray, eye: Point): (r: Option<Intersection>)
    requires AllTagged(es)
    ensures Nearest(m, es, ray, eye, r)
    ensures r.Some? ==> r.value.e < |es|
  {
    Scan(m, es, ray, eye, 0, Far, None)
  }

  // ------------------------------------------------------ reflection

  /** v − 2(n·v)n, computed as Vector_scale then Vector_sum. */
  function Mirror(n: Vector, v: Vector): Vector
  {
    Sum(Scale(n, 2.0 * -Dot(n, v), 0.0), v, 0.0)
  }

  /** For a unit normal the mirrored direction has the same length and
      the opposite component along the normal. */
  lemma MirrorReflects(n: Vector, v: Vector)
    requires LenSquared(n) == 1.0
    ensures Dot(Mirror(n, v), n) == -Dot(v, n)
    ensures LenSquared(Mirror(n, v)) == LenSquared(v)
  {
    var dv := Dot(n, v);
    var k := 2.0 * -dv;
    var r := Mirror(n, v);
    assert r == Vec4(k * n.x + v.x, k * n.y + v.y, k * n.z + v.z, 0.0);
    calc {
      Dot(r, n);
      == k * LenSquared(n) + Dot(v, n);
      == k + dv;
      == -Dot(v, n);
    }
    calc {
      LenSquared(r);
      == { MirrorSq(n.x, v.x, k); MirrorSq(n.y, v.y, k); MirrorSq(n.z, v.z, k); }
      (k * k) * LenSquared(n) + 2.0 * k * dv + LenSquared(v);
      == (k * k) + 2.0 * k * dv + LenSquared(v);
      == { assert k * k == 4.0 * (dv * dv); assert 2.0 * k * dv == -4.0 * (dv * dv); }
      LenSquared(v);
    }
  }

  /** One coordinate of MirrorReflects. */
  lemma MirrorSq(n: real, v: real, k: real)
    ensures (k * n + v) * (k * n + v) == (k * k) * (n * n) + 2.0 * k * (n * v) + v * v
  {
  }

  /** Ray_reflect: the mirrored direction, normalised, from the hit point
      moved 10e-6 along the normal so that the new ray does not meet the
      same surface at distance 0. */
  function Reflect(m: Libm, ray: Ray, inter: Intersection): (r: Ray)
    ensures r.v == Normalize(m, Mirror(inter.nor, ray.v))
  {
    var n := inter.nor;
    RaySet(m, Vec4(inter.p.x + n.x * 0.00001, inter.p.y + n.y * 0.00001, inter.p.z + n.z * 0.00001, 1.0),
           Mirror(n, ray.v))
  }

  // ------------------------------------------------------ shadows

  /** The shadow ray towards a light: from the hit point moved 10e-5
      along the normal, towards the light position. */
  function ShadowRay(m: Libm, lt: Lighting.Light, inter: Intersection): Ray
  {
    var n := inter.nor;
    RaySet(m, Vec4(inter.p.x + 0.0001 * n.x, inter.p.y + 0.0001 * n.y, inter.p.z + 0.0001 * n.z, 1.0),
           VectorSet(lt.position.x - inter.p.x, lt.position.y - inter.p.y, lt.position.z - inter.p.z))
  }

  /** The inner loop of Ray_send: stops at the first element the shadow
      ray hits, at any distance. */
  function Blocks(m: Libm, es: seq<RayElement>, ray: Ray): (b: bool)
    requires AllTagged(es)
    ensures b <==> exists k :: Hits(m, es, ray, k)
    decreases |es|
  {
    if es == [] then false
    else if Intersect(m, ray, es[0]).Some? then
      assert Hits(m, es, ray, 0);
      true
    else
      var b := Blocks(m, es[1..], ray);
      assert forall k :: Hits(m, es[1..], ray, k) <==> Hits(m, es, ray, k + 1);
      assert b ==> exists k :: Hits(m, es, ray, k);
      assert (exists k :: Hits(m, es, ray, k)) ==> b by {
        if exists k :: Hits(m, es, ray, k) {
          var k :| Hits(m, es, ray, k);
          assert k != 0 && Hits(m, es[1..], ray, k - 1);
        }
      }
      b
  }

  /** The unit vector from the hit point towards the view reference point. */
  function ViewDir(m: Libm, inter: Intersection, vrp: Point): Vector
  {
    Normalize(m, VectorSet(-inter.p.x + vrp.x, -inter.p.y + vrp.y, -inter.p.z + vrp.z))
  }

  /** Light_diffuse of light i at the hit, with the element's diffuse
      colour, sharpness 32 and a one-sided surface. */
  function LightDiffuse(m: Libm, lt: Lighting.Light, es: seq<RayElement>, inter: Intersection, vrp: Point): Color
    requires AllTagged(es) && inter.e < |es|
  {
    Lighting.Diffuse(m, lt, inter.nor, ViewDir(m, inter, vrp), inter.p, DiffuseColor(es[inter.e]), 32.0, 1)
  }

  /** Whether light i is hidden from the hit by some element. */
  predicate Shadowed(m: Libm, lights: Lighting.Lights, es: seq<RayElement>, inter: Intersection, i: int)
    requires AllTagged(es) && lights.Valid() && 0 <= i < lights.nLights
  {
    Blocks(m, es, ShadowRay(m, lights.light[i], inter))
  }

  /** What each light contributes at the hit: nothing when it is
      shadowed, otherwise its Light_diffuse value. */
  function PerLight(m: Libm, lights: Lighting.Lights, es: seq<RayElement>, inter: Intersection,
                    vrp: Point): (vals: seq<Option<Color>>)
    requires AllTagged(es) && lights.Valid() && inter.e < |es|
    ensures |vals| == lights.nLights
    ensures forall i :: 0 <= i < |vals| ==>
              (vals[i].None? <==> Shadowed(m, lights, es, inter, i))
              && (vals[i].Some? ==> vals[i].value == LightDiffuse(m, lights.light[i], es, inter, vrp))
  {
    seq(lights.nLights, i requires 0 <= i < lights.nLights =>
      if Shadowed(m, lights, es, inter, i) then None
      else Some(LightDiffuse(m, lights.light[i], es, inter, vrp)))
  }

  /** The light loop of Ray_send as written: `diffuse` is declared once
      outside the loop, so at a shadowed light it still holds the previous
      light's value, and that value is added again. */
  function SumAsWritten(vals: seq<Option<Color>>, diffuse: Color, acc: Color): (c: Color)
    decreases |vals|
  {
    if vals == [] then acc
    else
      var d := if vals[0].None? then diffuse else vals[0].value;
      SumAsWritten(vals[1..], d, ColorSum(acc, d))
  }

  /** The light loop as intended: a shadowed light adds nothing. */
  function SumIntended(vals: seq<Option<Color>>, acc: Color): (c: Color)
    decreases |vals|
  {
    if vals == [] then acc
    else SumIntended(vals[1..], ColorSum(acc, if vals[0].None? then Black else vals[0].value))
  }

  /** Ray_send as written. */
  function RaySendAsWritten(m: Libm, lights: Lighting.Lights, es: seq<RayElement>, inter: Intersection,
                            vrp: Point): Color
    requires AllTagged(es) && lights.Valid() && inter.e < |es|
  {
    SumAsWritten(PerLight(m, lights, es, inter, vrp), Black, Black)
  }

  /** Ray_send as intended: the sum of the unshadowed lights' diffuse
      values. */
  function RaySend(m: Libm, lights: Lighting.Lights, es: seq<RayElement>, inter: Intersection,
                   vrp: Point): Color
    requires AllTagged(es) && lights.Valid() && inter.e < |es|
  {
    SumIntended(PerLight(m, lights, es, inter, vrp), Black)
  }

  /** While no light is shadowed the two loops agree. */
  lemma {:induction false} SumsAgreeUnshadowed(vals: seq<Option<Color>>, diffuse: Color, acc: Color)
    requires forall i :: 0 <= i < |vals| ==> vals[i].Some?
    ensures SumAsWritten(vals, diffuse, acc) == SumIntended(vals, acc)
    decreases |vals|
  {
    if vals != [] {
      SumsAgreeUnshadowed(vals[1..], vals[0].value, ColorSum(acc, vals[0].value));
    }
  }

  /** The intended loop adds each unshadowed value once, and nothing for
      a shadowed light: it is the accumulator plus the sum of the values
      present. */
  lemma {:induction false} SumIntendedAppend(vals: seq<Option<Color>>, v: Option<Color>, acc: Color)
    ensures SumIntended(vals + [v], acc)
            == ColorSum(SumIntended(vals, acc), if v.None? then Black else v.value)
    decreases |vals|
  {
    if vals == [] {
      assert [v][1..] == [];
    } else {
      assert (vals + [v])[1..] == vals[1..] + [v];
      SumIntendedAppend(vals[1..], v, ColorSum(acc, if vals[0].None? then Black else vals[0].value));
    }
  }

  /** With no light reaching the point, the intended sum is black. */
  lemma {:induction false} SumIntendedAllShadowed(vals: seq<Option<Color>>, acc: Color)
    requires forall i :: 0 <= i < |vals| ==> vals[i].None?
    ensures SumIntended(vals, acc) == acc
    decreases |vals|
  {
    if vals != [] {
      ColorSumMonoid(acc, Black, Black);
      SumIntendedAllShadowed(vals[1..], ColorSum(acc, Black));
    }
  }

  /** One light reaching the point with value d and a second one
      shadowed: as written d is counted twice, as intended once. */
  lemma SendStaleDiffuse(d: Color)
    ensures SumAsWritten([Some(d), None], Black, Black) == ColorSum(d, d)
    ensures SumIntended([Some(d), None], Black) == d
    ensures d != Black ==> SumAsWritten([Some(d), None], Black, Black) != SumIntended([Some(d), None], Black)
  {
    ColorSumMonoid(d, Black, Black);
    assert [Some(d), None][1..] == [None];
    var last: seq<Option<Color>> := [None];
    assert last[1..] == [];
  }

  /** Ray_send as written and as intended agree when no light is
      shadowed, and split on a scene where the second of two lights is. */
  lemma RaySendAgreesUnshadowed(m: Libm, lights: Lighting.Lights, es: seq<RayElement>, inter: Intersection, vrp: Point)
    requires AllTagged(es) && lights.Valid() && inter.e < |es|
    requires forall i :: 0 <= i < lights.nLights ==> !Shadowed(m, lights, es, inter, i)
    ensures RaySendAsWritten(m, lights, es, inter, vrp) == RaySend(m, lights, es, inter, vrp)
  {
    SumsAgreeUnshadowed(PerLight(m, lights, es, inter, vrp), Black, Black);
  }

  /** In a scene where the first of two lights reaches the hit and the
      second is shadowed, Ray_send as written returns twice the first
      light's value. */
  lemma RaySendStaleDiffuse(m: Libm, lights: Lighting.Lights, es: seq<RayElement>, inter: Intersection, vrp: Point)
    requires AllTagged(es) && lights.Valid() && inter.e < |es| && lights.nLights == 2
    requires !Shadowed(m, lights, es, inter, 0) && Shadowed(m, lights, es, inter, 1)
    ensures var d := LightDiffuse(m, lights.light[0], es, inter, vrp);
            RaySendAsWritten(m, lights, es, inter, vrp) == ColorSum(d, d)
            && RaySend(m, lights, es, inter, vrp) == d
  {
    var d := LightDiffuse(m, lights.light[0], es, inter, vrp);
    var vals := PerLight(m, lights, es, inter, vrp);
    assert vals == [Some(d), None];
    SendStaleDiffuse(d);
  }

  // ------------------------------------------------------ Ray_trace

  /** Ray_trace: black at depth 0 or when nothing is hit nearer than
      10e10; otherwise the shadow-tested diffuse light at the nearest hit,
      plus, for a reflective element, the colour traced along the
      reflected ray one level shallower, weighted by the element's
      specular colour.  Refraction is never traced, so its value and
      coefficient stay black.  The light is gathered by Ray_send as
      written, or as intended when `intended` holds. */
  function TraceWith(m: Libm, lights: Lighting.Lights, es: seq<RayElement>, ray: Ray, depth: nat,
                     eye: Point, vrp: Point, intended: bool): (c: Color)
    requires AllTagged(es) && lights.Valid()
    decreases depth
  {
    if depth == 0 then Black
    else
      match Trace(m, es, ray, eye)
      case None => Black
      case Some(hit) =>
        var pointColor := if intended then RaySend(m, lights, es, hit, vrp)
                          else RaySendAsWritten(m, lights, es, hit, vrp);
        if IsReflective(es[hit.e]) == 1 then
          var reflectValue := TraceWith(m, lights, es, Reflect(m, ray, hit), depth - 1, eye, vrp, intended);
          AddColors(pointColor, reflectValue, SpecularColor(es[hit.e]), Black, Black)
        else
          AddColors(pointColor, Black, Black, Black, Black)
  }

  /** Ray_trace as written. */
  function RayTrace(m: Libm, lights: Lighting.Lights, es: seq<RayElement>, ray: Ray, depth: nat,
                    eye: Point, vrp: Point): Color
    requires AllTagged(es) && lights.Valid()
  {
    TraceWith(m, lights, es, ray, depth, eye, vrp, false)
  }

  /** Ray_trace with the corrected Ray_send at every bounce. */
  function RayTraceIntended(m: Libm, lights: Lighting.Lights, es: seq<RayElement>, ray: Ray, depth: nat,
                            eye: Point, vrp: Point): Color
    requires AllTagged(es) && lights.Valid()
  {
    TraceWith(m, lights, es, ray, depth, eye, vrp, true)
  }

  /** Black when the depth is used up or no element is hit nearer than
      10e10. */
  lemma RayTraceBlack(m: Libm, lights: Lighting.Lights, es: seq<RayElement>, ray: Ray, depth: nat,
                      eye: Point, vrp: Point)
    requires AllTagged(es) && lights.Valid()
    requires depth == 0 || forall k :: 0 <= k < |es| && Hits(m, es, ray, k) ==> HitDist(m, es, ray, eye, k) >= Far
    ensures RayTrace(m, lights, es, ray, depth, eye, vrp) == Black
    ensures RayTraceIntended(m, lights, es, ray, depth, eye, vrp) == Black
  {
  }

  /** At a non-reflective element the colour is exactly the diffuse light
      Ray_send gathers there: as written by Ray_trace, as intended by the
      corrected trace. */
  lemma RayTraceMatte(m: Libm, lights: Lighting.Lights, es: seq<RayElement>, ray: Ray, depth: nat,
                      eye: Point, vrp: Point)
    requires AllTagged(es) && lights.Valid() && depth > 0
    requires var r := Trace(m, es, ray, eye); r.Some? && IsReflective(es[r.value.e]) != 1
    ensures var hit := Trace(m, es, ray, eye).value;
            RayTrace(m, lights, es, ray, depth, eye, vrp) == RaySendAsWritten(m, lights, es, hit, vrp)
    ensures var hit := Trace(m, es, ray, eye).value;
            RayTraceIntended(m, lights, es, ray, depth, eye, vrp) == RaySend(m, lights, es, hit, vrp)
  {
    var hit := Trace(m, es, ray, eye).value;
    AddColorsChannels(RaySendAsWritten(m, lights, es, hit, vrp), Black, Black, Black, Black, 0.0, 0.0);
    AddColorsChannels(RaySend(m, lights, es, hit, vrp), Black, Black, Black, Black, 0.0, 0.0);
  }

  /** At a reflective element with depth 1 the reflected ray is traced
      with depth 0 and adds nothing. */
  lemma RayTraceLastBounce(m: Libm, lights: Lighting.Lights, es: seq<RayElement>, ray: Ray,
                           eye: Point, vrp: Point)
    requires AllTagged(es) && lights.Valid()
    requires Trace(m, es, ray, eye).Some?
    ensures var hit := Trace(m, es, ray, eye).value;
            RayTrace(m, lights, es, ray, 1, eye, vrp) == RaySendAsWritten(m, lights, es, hit, vrp)
    ensures var hit := Trace(m, es, ray, eye).value;
            RayTraceIntended(m, lights, es, ray, 1, eye, vrp) == RaySend(m, lights, es, hit, vrp)
  {
    var hit := Trace(m, es, ray, eye).value;
    var pc, pi := RaySendAsWritten(m, lights, es, hit, vrp), RaySend(m, lights, es, hit, vrp);
    AddColorsChannels(pc, Black, SpecularColor(es[hit.e]), Black, Black, 0.0, 0.0);
    AddColorsChannels(pc, Black, Black, Black, Black, 0.0, 0.0);
    AddColorsChannels(pi, Black, SpecularColor(es[hit.e]), Black, Black, 0.0, 0.0);
    AddColorsChannels(pi, Black, Black, Black, Black, 0.0, 0.0);
  }

  /** On a matte element lit by two lights of which the second is
      shadowed, Ray_trace returns twice the first light's value and the
      corrected trace returns it once. */
  lemma RayTraceStaleDiffuse(m: Libm, lights: Lighting.Lights, es: seq<RayElement>, ray: Ray, depth: nat,
                             eye: Point, vrp: Point)
    requires AllTagged(es) && lights.Valid() && depth > 0 && lights.nLights == 2
    requires var r := Trace(m, es, ray, eye); r.Some? && IsReflective(es[r.value.e]) != 1
    requires var hit := Trace(m, es, ray, eye).value;
             !Shadowed(m, lights, es, hit, 0) && Shadowed(m, lights, es, hit, 1)
    ensures var hit := Trace(m, es, ray, eye).value;
            var d := LightDiffuse(m, lights.light[0], es, hit, vrp);
            RayTrace(m, lights, es, ray, depth, eye, vrp) == ColorSum(d, d)
            && RayTraceIntended(m, lights, es, ray, depth, eye, vrp) == d
  {
    var hit := Trace(m, es, ray, eye).value;
    RayTraceMatte(m, lights, es, ray, depth, eye, vrp);
    RaySendStaleDiffuse(m, lights, es, hit, vrp);
  }
}

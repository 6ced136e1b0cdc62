/** The ray tracer's scene objects (lib/ray_object.c,
    include/cb_ray_object.h): a plane A·x + B·y + C·z + D = 0 and a
    sphere, each with its surface colours, flags and index of
    refraction. */
module RayObjects {
  import opened CNum
  import opened Colors
  import opened Geometry

  /** The plane coefficients p[0..3] are a, b, c, d. */
  datatype Plane = Plane(
    a: real, b: real, c: real, d: real,
    diffuse: Color, specular: Color, refraction: Color,
    isReflective: int, isRefractive: int, rIndex: real)

  datatype Sphere = Sphere(
    center: Point, radius: real,
    diffuse: Color, specular: Color, refraction: Color,
    isReflective: int, isRefractive: int, rIndex: real)

  /** A² + B² + C², the squared length of the plane normal. */
  function NormalSq(a: real, b: real, c: real): real
  {
    a * a + b * b + c * c
  }

  /** Plane_set: the four coefficients divided by √(A² + B² + C²); the
      colours, flags and index of refraction are left alone. */
  function PlaneSet(m: Libm, pl: Plane, a: real, b: real, c: real, d: real): (r: Plane)
    ensures r.(a := pl.a, b := pl.b, c := pl.c, d := pl.d) == pl
    ensures var f := m.sqrt(NormalSq(a, b, c));
            f != 0.0 ==> r.a * f == a && r.b * f == b && r.c * f == c && r.d * f == d
  {
    var f := m.sqrt(NormalSq(a, b, c));
    pl.(a := Quot(a, f), b := Quot(b, f), c := Quot(c, f), d := Quot(d, f))
  }

  /** With a square root exact at A² + B² + C² ≠ 0 the normal of the set
      plane has unit length. */
  lemma PlaneSetUnit(m: Libm, pl: Plane, a: real, b: real, c: real, d: real)
    requires NormalSq(a, b, c) != 0.0
    requires m.sqrt(NormalSq(a, b, c)) * m.sqrt(NormalSq(a, b, c)) == NormalSq(a, b, c)
    ensures var r := PlaneSet(m, pl, a, b, c, d);
            NormalSq(r.a, r.b, r.c) == 1.0
  {
    var f := m.sqrt(NormalSq(a, b, c));
    var r := PlaneSet(m, pl, a, b, c, d);
    assert f != 0.0;
    UnitAfterScale(r.a, r.b, r.c, f, a, b, c);
  }

  /** (x, y, z) scaled by f is (a, b, c), and f² is the squared length of
      (a, b, c): then (x, y, z) has unit length. */
  lemma UnitAfterScale(x: real, y: real, z: real, f: real, a: real, b: real, c: real)
    requires x * f == a && y * f == b && z * f == c
    requires f * f == NormalSq(a, b, c) && NormalSq(a, b, c) != 0.0
    ensures NormalSq(x, y, z) == 1.0
  {
    ScaledSq(x, y, z, f, a, b, c);
    Cancel(NormalSq(x, y, z), f, NormalSq(a, b, c));
  }

  /** n · f² == s with f² == s ≠ 0 forces n == 1. */
  lemma Cancel(n: real, f: real, s: real)
    requires f * f == s && s != 0.0 && n * (f * f) == s
    ensures n == 1.0
  {
    var ff := f * f;
    var k := n - 1.0;
    assert k * ff == 0.0;
    assert k == (k * ff) / ff;
  }

  /** Scaling (x, y, z) by f scales its squared length by f². */
  lemma ScaledSq(x: real, y: real, z: real, f: real, a: real, b: real, c: real)
    requires x * f == a && y * f == b && z * f == c
    ensures NormalSq(x, y, z) * (f * f) == NormalSq(a, b, c)
  {
    assert a * a == (x * x) * (f * f);
    assert b * b == (y * y) * (f * f);
    assert c * c == (z * z) * (f * f);
  }

  /** The set plane holds exactly the points the given coefficients
      describe, whenever the divisor is non-zero. */
  lemma PlaneSetSamePoints(m: Libm, pl: Plane, a: real, b: real, c: real, d: real, p: Point)
    requires m.sqrt(NormalSq(a, b, c)) != 0.0
    ensures var r := PlaneSet(m, pl, a, b, c, d);
            r.a * p.x + r.b * p.y + r.c * p.z + r.d == 0.0 <==> a * p.x + b * p.y + c * p.z + d == 0.0
  {
    var f := m.sqrt(NormalSq(a, b, c));
    var r := PlaneSet(m, pl, a, b, c, d);
    var e := r.a * p.x + r.b * p.y + r.c * p.z + r.d;
    assert e * f == a * p.x + b * p.y + c * p.z + d by {
      assert (r.a * p.x) * f == a * p.x;
      assert (r.b * p.y) * f == b * p.y;
      assert (r.c * p.z) * f == c * p.z;
    }
  }

  /** Plane_setColor: diffuse, specular and the reflective flag; the
      refraction colour, refractive flag and index are left alone. */
  function PlaneSetColor(pl: Plane, diffuse: Color, specular: Color, isReflective: int): (r: Plane)
    ensures r.diffuse == diffuse && r.specular == specular && r.isReflective == isReflective
    ensures r.(diffuse := pl.diffuse, specular := pl.specular, isReflective := pl.isReflective) == pl
  {
    pl.(diffuse := diffuse, specular := specular, isReflective := isReflective)
  }

  /** Sphere_set: centre and radius; nothing else. */
  function SphereSet(s: Sphere, c: Point, radius: real): (r: Sphere)
    ensures r.center == c && r.radius == radius
    ensures r.(center := s.center, radius := s.radius) == s
  {
    s.(center := c, radius := radius)
  }

  /** Sphere_setColor: the three colours and both flags; centre, radius
      and index of refraction are left alone. */
  function SphereSetColor(s: Sphere, diffuse: Color, specular: Color, refraction: Color,
                          isRefractive: int, isReflective: int): (r: Sphere)
    ensures r.diffuse == diffuse && r.specular == specular && r.refraction == refraction
    ensures r.isRefractive == isRefractive && r.isReflective == isReflective
    ensures r.center == s.center && r.radius == s.radius && r.rIndex == s.rIndex
  {
    s.(diffuse := diffuse, specular := specular, refraction := refraction,
       isReflective := isReflective, isRefractive := isRefractive)
  }

  /** Sphere_setRIndex: the index of refraction only. */
  function SphereSetRIndex(s: Sphere, rIndex: real): (r: Sphere)
    ensures r.rIndex == rIndex && r.(rIndex := s.rIndex) == s
  {
    s.(rIndex := rIndex)
  }
}

/** Points and vectors (lib/point.c, lib/vector.c).

    Both are four doubles in C; a point carries a homogeneous coordinate
    `w` (normally 1) and a vector has `w` = 0.  One datatype serves both. */
module Geometry {
  import opened CNum

  datatype Vec4 = Vec4(x: real, y: real, z: real, w: real)

  type Point = Vec4
  type Vector = Vec4

  // ---------------------------------------------------------------- points

  /** Point_set2D: (x, y, 0, 1). */
  function PointSet2D(x: real, y: real): (p: Point)
    ensures p.x == x && p.y == y && p.z == 0.0 && p.w == 1.0
  {
    Vec4(x, y, 0.0, 1.0)
  }

  /** Point_set: (x, y, z, 1). */
  function PointSet(x: real, y: real, z: real): (p: Point)
    ensures p.x == x && p.y == y && p.z == z && p.w == 1.0
  {
    Vec4(x, y, z, 1.0)
  }

  /** Point_normalize: divides x and y by w and sets w to 1.  The z
      division is commented out in the source, so z is left alone. */
  function PointNormalize(p: Point): (r: Point)
    ensures r.w == 1.0 && r.z == p.z
    ensures p.w != 0.0 ==> r.x * p.w == p.x && r.y * p.w == p.y
  {
    Vec4(Quot(p.x, p.w), Quot(p.y, p.w), p.z, 1.0)
  }

  /** Normalising a second time changes nothing. */
  lemma PointNormalizeIdempotent(p: Point)
    ensures PointNormalize(PointNormalize(p)) == PointNormalize(p)
  {
    PointNormalizeFixes(PointNormalize(p));
  }

  /** A point whose w is already 1 is its own normal form. */
  lemma PointNormalizeFixes(p: Point)
    requires p.w == 1.0
    ensures PointNormalize(p) == p
  {
    assert Quot(p.x, 1.0) == p.x && Quot(p.y, 1.0) == p.y;
  }

  /** Point_dist2 as written: the y and z terms subtract p2's x
      coordinate in their first factor. */
  function PointDist2(p1: Point, p2: Point): (d: real)
    ensures p1.x == p2.x && p1.y == p2.y && p1.z == p2.z ==> d == 0.0
  {
    (p1.x - p2.x) * (p1.x - p2.x)
    + (p1.y - p2.x) * (p1.y - p2.y)
    + (p1.z - p2.x) * (p1.z - p2.z)
  }

  /** The squared Euclidean distance Point_dist2 evidently means. */
  function PointDist2Intended(p1: Point, p2: Point): (d: real)
    ensures d >= 0.0
    ensures p1.x == p2.x && p1.y == p2.y && p1.z == p2.z ==> d == 0.0
  {
    SumSq3NonNeg(p1.x - p2.x, p1.y - p2.y, p1.z - p2.z);
    SumSq3(p1.x - p2.x, p1.y - p2.y, p1.z - p2.z)
  }

  /** Point_dist2 as written is not symmetric and disagrees with the
      squared distance: from the origin to (2, 1, 0) it gives 6, the other
      way round 5, and the squared distance is 5. */
  lemma PointDist2AsWrittenIsWrong()
    ensures PointDist2(Vec4(0.0, 0.0, 0.0, 1.0), Vec4(2.0, 1.0, 0.0, 1.0)) == 6.0
    ensures PointDist2(Vec4(2.0, 1.0, 0.0, 1.0), Vec4(0.0, 0.0, 0.0, 1.0)) == 5.0
    ensures PointDist2Intended(Vec4(0.0, 0.0, 0.0, 1.0), Vec4(2.0, 1.0, 0.0, 1.0)) == 5.0
  {
  }

  /** The intended squared distance is symmetric. */
  lemma PointDist2IntendedSymmetric(p1: Point, p2: Point)
    ensures PointDist2Intended(p1, p2) == PointDist2Intended(p2, p1)
  {
  }

  /** Point_dist: the square root of the squared Euclidean distance (this
      function spells the three terms correctly). */
  function PointDist(m: Libm, p1: Point, p2: Point): (d: real)
    ensures d == m.sqrt(PointDist2Intended(p1, p2))
  {
    var s := SumSq3(p1.x - p2.x, p1.y - p2.y, p1.z - p2.z);
    m.sqrt(s)
  }

  // --------------------------------------------------------------- vectors

  /** Vector_set: (x, y, z, 0). */
  function VectorSet(x: real, y: real, z: real): (v: Vector)
    ensures v.x == x && v.y == y && v.z == z && v.w == 0.0
  {
    Vec4(x, y, z, 0.0)
  }

  /** x*x + y*y + z*z. */
  function SumSq3(x: real, y: real, z: real): real
  {
    x * x + y * y + z * z
  }

  /** A sum of three squares is never negative and is zero at the origin. */
  lemma SumSq3NonNeg(x: real, y: real, z: real)
    ensures SumSq3(x, y, z) >= 0.0
    ensures x == 0.0 && y == 0.0 && z == 0.0 ==> SumSq3(x, y, z) == 0.0
  {
    SquareNonNeg(x);
    SquareNonNeg(y);
    SquareNonNeg(z);
  }

  lemma SquareNonNeg(a: real)
    ensures a * a >= 0.0
    ensures a != 0.0 ==> a * a > 0.0
    ensures a == 0.0 ==> a * a == 0.0
  {
    if a < 0.0 {
      assert a * a == (-a) * (-a);
      assert (-a) * (-a) > 0.0;
    } else if a > 0.0 {
      assert a * a > 0.0;
    }
  }

  /** Vector_lenSquared. */
  function LenSquared(v: Vector): (l: real)
  {
    SumSq3(v.x, v.y, v.z)
  }

  /** The squared length is v·v: never negative, and zero at the zero
      vector. */
  lemma LenSquaredIsDot(v: Vector)
    ensures LenSquared(v) == Dot(v, v) && LenSquared(v) >= 0.0
    ensures v.x == 0.0 && v.y == 0.0 && v.z == 0.0 ==> LenSquared(v) == 0.0
  {
    SumSq3NonNeg(v.x, v.y, v.z);
  }

  /** Vector_length. */
  function Length(m: Libm, v: Vector): (l: real)
    ensures l == m.sqrt(LenSquared(v))
  {
    var s := SumSq3(v.x, v.y, v.z);
    m.sqrt(s)
  }

  /** Vector_normalize: when the length is non-zero, divides x, y, z by it
      and sets w to 0; a zero-length vector is returned unchanged. */
  function Normalize(m: Libm, v: Vector): (r: Vector)
    ensures Length(m, v) == 0.0 ==> r == v
    ensures Length(m, v) != 0.0 ==>
              r.w == 0.0
              && r.x * Length(m, v) == v.x
              && r.y * Length(m, v) == v.y
              && r.z * Length(m, v) == v.z
  {
    var l := Length(m, v);
    if l != 0.0 then Vec4(v.x / l, v.y / l, v.z / l, 0.0) else v
  }

  /** Normalizing a vector whose length is known to be 1 keeps its
      direction exactly: only w is reset. */
  lemma NormalizeUnit(m: Libm, v: Vector)
    requires Length(m, v) == 1.0
    ensures Normalize(m, v) == v.(w := 0.0)
  {
  }

  /** Vector_dot: the three-component scalar product (w is ignored). */
  function Dot(a: Vector, b: Vector): (d: real)
  {
    a.x * b.x + a.y * b.y + a.z * b.z
  }

  /** Vector_cross: writes x, y, z only; the result's w is the w the
      destination already held, passed as `w`. */
  function Cross(a: Vector, b: Vector, w: real): (c: Vector)
    ensures c.x == a.y * b.z - a.z * b.y
    ensures c.y == a.z * b.x - a.x * b.z
    ensures c.z == a.x * b.y - a.y * b.x
    ensures Dot(c, a) == 0.0 && Dot(c, b) == 0.0
    ensures c.w == w
  {
    Vec4(a.y * b.z - a.z * b.y,
         a.z * b.x - a.x * b.z,
         a.x * b.y - a.y * b.x,
         w)
  }

  /** Vector_sum: component-wise sum of x, y, z; w comes from the
      destination. */
  function Sum(a: Vector, b: Vector, w: real): (c: Vector)
    ensures forall v :: Dot(c, v) == Dot(a, v) + Dot(b, v)
    ensures c.w == w
  {
    Vec4(a.x + b.x, a.y + b.y, a.z + b.z, w)
  }

  /** Vector_scale: k times x, y, z; w comes from the destination. */
  function Scale(a: Vector, k: real, w: real): (b: Vector)
    ensures forall v :: Dot(b, v) == k * Dot(a, v)
    ensures b.w == w
  {
    Vec4(k * a.x, k * a.y, k * a.z, w)
  }

  /** The scalar product is symmetric and Sum commutes. */
  lemma DotSumSymmetric(a: Vector, b: Vector, w: real)
    ensures Dot(a, b) == Dot(b, a)
    ensures Sum(a, b, w) == Sum(b, a, w)
  {
  }

  /** Two vectors with the same scalar product against the three axes
      agree in x, y and z: a property stated for every v through Dot, as
      the contracts of Sum and Scale are, fixes the components. */
  lemma DotDetermines(c: Vector, d: Vector)
    requires Dot(c, Vec4(1.0, 0.0, 0.0, 0.0)) == Dot(d, Vec4(1.0, 0.0, 0.0, 0.0))
    requires Dot(c, Vec4(0.0, 1.0, 0.0, 0.0)) == Dot(d, Vec4(0.0, 1.0, 0.0, 0.0))
    requires Dot(c, Vec4(0.0, 0.0, 1.0, 0.0)) == Dot(d, Vec4(0.0, 0.0, 1.0, 0.0))
    ensures c.x == d.x && c.y == d.y && c.z == d.z
  {
  }

  /** Vector_sum adds component by component, and is associative. */
  lemma SumComponents(a: Vector, b: Vector, c: Vector, w: real)
    ensures var s := Sum(a, b, w); s.x == a.x + b.x && s.y == a.y + b.y && s.z == a.z + b.z
    ensures Sum(Sum(a, b, w), c, w) == Sum(a, Sum(b, c, w), w)
  {
  }

  /** Lagrange's identity: |a × b|² = |a|²|b|² - (a·b)².  In particular
      the cross product of two parallel vectors is the zero vector, and of
      two orthogonal ones has the product of their lengths. */
  lemma {:induction false} CrossLagrange(a: Vector, b: Vector, w: real)
    ensures LenSquared(Cross(a, b, w)) == LenSquared(a) * LenSquared(b) - Dot(a, b) * Dot(a, b)
  {
    var c := Cross(a, b, w);
    assert c.x * c.x + c.y * c.y + c.z * c.z
           == (a.x * a.x + a.y * a.y + a.z * a.z) * (b.x * b.x + b.y * b.y + b.z * b.z)
              - (a.x * b.x + a.y * b.y + a.z * b.z) * (a.x * b.x + a.y * b.y + a.z * b.z);
  }

  /** Cross product is anti-commutative. */
  lemma CrossAntiCommutes(a: Vector, b: Vector, w: real)
    ensures Cross(a, b, w) == Scale(Cross(b, a, w), -1.0, w)
  {
  }

  /** Normalizing keeps two orthogonal vectors orthogonal. */
  lemma NormalizeKeepsOrthogonal(m: Libm, a: Vector, b: Vector)
    requires Dot(a, b) == 0.0
    ensures Dot(Normalize(m, a), Normalize(m, b)) == 0.0
  {
    var ra := Normalize(m, a);
    NormalizeKeepsZeroDot(m, a, b);
    DotSumSymmetric(ra, b, 0.0);
    NormalizeKeepsZeroDot(m, b, ra);
    DotSumSymmetric(Normalize(m, b), ra, 0.0);
  }

  /** Normalizing one side of a zero scalar product keeps it zero: either
      the vector is unchanged, or it was the result scaled by its
      non-zero length. */
  lemma NormalizeKeepsZeroDot(m: Libm, a: Vector, b: Vector)
    requires Dot(a, b) == 0.0
    ensures Dot(Normalize(m, a), b) == 0.0
  {
    var la := Length(m, a);
    if la != 0.0 {
      ScaledDot(a, Normalize(m, a), la, b);
      ZeroFactor(Dot(Normalize(m, a), b), la);
    }
  }

  /** If a is r scaled by k (in x, y, z), so is its scalar product with s. */
  lemma ScaledDot(a: Vector, r: Vector, k: real, s: Vector)
    requires a.x == r.x * k && a.y == r.y * k && a.z == r.z * k
    ensures Dot(a, s) == Dot(r, s) * k
  {
  }

  /** A product with a non-zero factor vanishes only with the other. */
  lemma ZeroFactor(x: real, k: real)
    requires x * k == 0.0 && k != 0.0
    ensures x == 0.0
  {
  }
}

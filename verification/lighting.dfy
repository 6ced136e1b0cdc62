/** Lights and the shading equation (lib/lighting.c,
    include/cb_lighting.h). */
module Lighting {
  import opened CNum
  import opened Colors
  import opened Geometry

  /** MAX_LIGHTS: the size of the light array. */
  const MaxLights := 64

  datatype LightType = LightNone | LightAmbient | LightDirect | LightPoint | LightSpot

  datatype Light = Light(
    ltype: LightType,
    color: Color,
    direction: Vector,
    position: Point,
    cutoff: real,
    sharpness: real)

  /** A Lighting value: the count of lights in use and the fixed array of
      MaxLights slots. */
  datatype Lights = Lights(nLights: int, light: seq<Light>)
  {
    ghost predicate Valid()
    {
      |light| == MaxLights && 0 <= nLights <= MaxLights
    }
  }

  /** Light_init: type none, white, direction (1,0,0), position at the
      origin, cutoff 0 and sharpness 32.  Only x, y, z of direction and
      position are written; their w is whatever the slot held. */
  function LightInit(l: Light): (r: Light)
    ensures r.ltype == LightNone && r.color == White
    ensures r.direction == Vec4(1.0, 0.0, 0.0, l.direction.w)
    ensures r.position == Vec4(0.0, 0.0, 0.0, l.position.w)
    ensures r.cutoff == 0.0 && r.sharpness == 32.0
  {
    Light(LightNone, Color(1.0, 1.0, 1.0),
          l.direction.(x := 1.0, y := 0.0, z := 0.0),
          l.position.(x := 0.0, y := 0.0, z := 0.0),
          0.0, 32.0)
  }

  /** Light_copy: every field of `from` except the w of direction and
      position, which keep the destination's values. */
  function LightCopy(to: Light, from: Light): (r: Light)
    ensures r.ltype == from.ltype && r.color == from.color
    ensures r.cutoff == from.cutoff && r.sharpness == from.sharpness
    ensures r.direction.w == to.direction.w && r.position.w == to.position.w
    ensures from.direction.w == to.direction.w && from.position.w == to.position.w ==> r == from
  {
    Light(from.ltype, from.color,
          from.direction.(w := to.direction.w),
          from.position.(w := to.position.w),
          from.cutoff, from.sharpness)
  }

  /** Light_init is idempotent and forgets everything but the two w's. */
  lemma LightInitIdempotent(l: Light, l2: Light)
    requires l.direction.w == l2.direction.w && l.position.w == l2.position.w
    ensures LightInit(LightInit(l)) == LightInit(l)
    ensures LightInit(l) == LightInit(l2)
  {
  }

  /** Lighting_create: no lights in use; every slot initialised by
      Light_init from the uninitialised storage `junk`. */
  function Create(junk: Light): (l: Lights)
    ensures l.Valid() && l.nLights == 0
    ensures forall i :: 0 <= i < MaxLights ==> l.light[i] == LightInit(junk)
  {
    Lights(0, seq(MaxLights, i => LightInit(junk)))
  }

  /** Lighting_init: only the count is reset. */
  function Init(l: Lights): (r: Lights)
    ensures r.nLights == 0 && r.light == l.light
  {
    l.(nLights := 0)
  }

  /** Lighting_add.  While fewer than MaxLights - 1 lights are in use, the
      next slot is re-initialised and given the type, the optional colour,
      direction (x, y, z) and position (x, y, z), the cutoff and the
      sharpness, and the count grows by one; otherwise nothing changes. */
  function Add(l: Lights, ltype: LightType, c: Option<Color>, dir: Option<Vector>,
               pos: Option<Point>, cutoff: real, sharpness: real): (r: Lights)
    requires l.Valid()
    ensures r.Valid()
    ensures l.nLights < MaxLights - 1 ==> r.nLights == l.nLights + 1
    ensures l.nLights >= MaxLights - 1 ==> r == l
    ensures forall i :: 0 <= i < MaxLights && i != l.nLights ==> r.light[i] == l.light[i]
    ensures l.nLights < MaxLights - 1 ==>
              var n := r.light[l.nLights];
              && n.ltype == ltype && n.cutoff == cutoff && n.sharpness == sharpness
              && n.color == (if c.Some? then c.value else White)
              && n.direction.x == (if dir.Some? then dir.value.x else 1.0)
              && n.direction.y == (if dir.Some? then dir.value.y else 0.0)
              && n.direction.z == (if dir.Some? then dir.value.z else 0.0)
              && n.position.x == (if pos.Some? then pos.value.x else 0.0)
              && n.position.y == (if pos.Some? then pos.value.y else 0.0)
              && n.position.z == (if pos.Some? then pos.value.z else 0.0)
  {
    if l.nLights < MaxLights - 1 then
      var d := LightInit(l.light[l.nLights]);
      var d1 := d.(ltype := ltype);
      var d2 := if c.Some? then d1.(color := c.value) else d1;
      var d3 := if dir.Some? then d2.(direction := d2.direction.(x := dir.value.x, y := dir.value.y, z := dir.value.z)) else d2;
      var d4 := if pos.Some? then d3.(position := d3.position.(x := pos.value.x, y := pos.value.y, z := pos.value.z)) else d3;
      var d5 := d4.(cutoff := cutoff, sharpness := sharpness);
      Lights(l.nLights + 1, l.light[l.nLights := d5])
    else
      l
  }

  /** However many lights are added, the count never exceeds
      MaxLights - 1 once it starts at or below it. */
  lemma AddNeverExceedsCap(l: Lights, ltype: LightType, c: Option<Color>, dir: Option<Vector>,
                           pos: Option<Point>, cutoff: real, sharpness: real)
    requires l.Valid() && l.nLights <= MaxLights - 1
    ensures Add(l, ltype, c, dir, pos, cutoff, sharpness).nLights <= MaxLights - 1
  {
  }

  // ------------------------------------------------------------- shading

  /** The contribution of one light to Lighting_shading, with N, V and p
      already normalised.  Only ambient and point lights contribute.

      A point light uses L, the unit vector from p towards the light, and
      the half-way vector H = (L + V) / 2.  A one-sided surface facing
      away from the light (L·N < 0) gets nothing from it; a two-sided one
      is lit from behind with both scalar products negated.  The value is
      Cb·Cl·(L·N) + Cl·Cs·pow(H·N, s) per channel. */
  function Contribution(m: Libm, lt: Light, n: Vector, v: Vector, p: Point,
                        cb: Color, cs: Color, s: real, oneSided: int): (c: Color)
    ensures lt.ltype in {LightNone, LightDirect, LightSpot} ==> c == Black
    ensures lt.ltype == LightAmbient ==> c == Mul(lt.color, cb)
    ensures (lt.ltype == LightPoint && oneSided == 1
             && Dot(ToLight(m, lt, p), n) < 0.0) ==> c == Black
    ensures (lt.ltype == LightPoint && !(oneSided == 1 && Dot(ToLight(m, lt, p), n) < 0.0)) ==>
              var cosL := Dot(ToLight(m, lt, p), n);
              var cosH := (cosL + Dot(v, n)) / 2.0;
              var back := oneSided == 0 && cosL < 0.0;
              c == ColorSum(ScaleBy(Mul(cb, lt.color), if back then -cosL else cosL),
                            ScaleBy(Mul(lt.color, cs), m.pow(if back then -cosH else cosH, s)))
  {
    match lt.ltype
    case LightAmbient => Mul(lt.color, cb)
    case LightPoint =>
      var l := ToLight(m, lt, p);
      var h := Vec4((l.x + v.x) / 2.0, (l.y + v.y) / 2.0, (l.z + v.z) / 2.0, 0.0);
      var v1 := Dot(l, n);
      var v2 := Dot(h, n);
      if oneSided == 1 && v1 < 0.0 then Black
      else
        var flip := oneSided == 0 && v1 < 0.0;
        var d := if flip then -v1 else v1;
        var sp := m.pow(if flip then -v2 else v2, s);
        HalfWayDot(l, v, h, n);
        ColorSum(ScaleBy(Mul(cb, lt.color), d), ScaleBy(Mul(lt.color, cs), sp))
    case _ => Black
  }

  /** The unit vector from p towards a light's position (w is 0). */
  function ToLight(m: Libm, lt: Light, p: Point): Vector
  {
    Normalize(m, Vec4(lt.position.x - p.x, lt.position.y - p.y, lt.position.z - p.z, 0.0))
  }

  /** The half-way vector's scalar product with N is the mean of L·N and
      V·N. */
  lemma HalfWayDot(l: Vector, v: Vector, h: Vector, n: Vector)
    requires h.x == (l.x + v.x) / 2.0 && h.y == (l.y + v.y) / 2.0 && h.z == (l.z + v.z) / 2.0
    ensures Dot(h, n) == (Dot(l, n) + Dot(v, n)) / 2.0
  {
  }

  /** A two-sided surface is lit alike from either side: turning the
      normal round changes nothing, except on the silhouette L·N = 0,
      where no flip happens and the specular term sees H·N with its
      sign. */
  lemma TwoSidedEitherFace(m: Libm, lt: Light, n: Vector, v: Vector, p: Point,
                           cb: Color, cs: Color, s: real)
    requires Dot(ToLight(m, lt, p), n) != 0.0
    ensures Contribution(m, lt, Scale(n, -1.0, n.w), v, p, cb, cs, s, 0)
            == Contribution(m, lt, n, v, p, cb, cs, s, 0)
  {
    var l, n' := ToLight(m, lt, p), Scale(n, -1.0, n.w);
    assert Dot(l, n') == -Dot(l, n) by {
      assert Dot(n', l) == -1.0 * Dot(n, l);
    }
    assert Dot(v, n') == -Dot(v, n) by {
      assert Dot(n', v) == -1.0 * Dot(n, v);
    }
  }

  /** The sum of the contributions of lights [0, k). */
  function SumLights(m: Libm, lts: seq<Light>, k: int, n: Vector, v: Vector, p: Point,
                     cb: Color, cs: Color, s: real, oneSided: int): Color
    requires 0 <= k <= |lts|
  {
    if k == 0 then Black
    else ColorSum(SumLights(m, lts, k - 1, n, v, p, cb, cs, s, oneSided),
                  Contribution(m, lts[k - 1], n, v, p, cb, cs, s, oneSided))
  }

  /** Lighting_shading: normalises N and V (as vectors) and p (as a
      point), then sums the contributions of the nLights lights in use.
      There is no clamping.  The C also leaves N, V and p normalised in
      the caller's storage; callers that rely on that apply the
      normalisation themselves. */
  function Shading(m: Libm, l: Lights, n: Vector, v: Vector, p: Point,
                   cb: Color, cs: Color, s: real, oneSided: int): (c: Color)
    requires l.Valid()
    ensures l.nLights == 0 ==> c == Black
  {
    SumLights(m, l.light, l.nLights, Normalize(m, n), Normalize(m, v), PointNormalize(p),
              cb, cs, s, oneSided)
  }

  /** Lights that are none, direct or spot can be changed freely: with
      only such lights in use, the result is black. */
  lemma {:induction false} InertLightsAddNothing(m: Libm, lts: seq<Light>, k: int, n: Vector, v: Vector,
                                                 p: Point, cb: Color, cs: Color, s: real, oneSided: int)
    requires 0 <= k <= |lts|
    requires forall i :: 0 <= i < k ==> lts[i].ltype in {LightNone, LightDirect, LightSpot}
    ensures SumLights(m, lts, k, n, v, p, cb, cs, s, oneSided) == Black
  {
    if k > 0 {
      InertLightsAddNothing(m, lts, k - 1, n, v, p, cb, cs, s, oneSided);
    }
  }

  /** The sum of the ambient terms Cl·Cb of lights [0, k). */
  function AmbientSum(lts: seq<Light>, k: int, cb: Color): Color
    requires 0 <= k <= |lts|
  {
    if k == 0 then Black
    else ColorSum(AmbientSum(lts, k - 1, cb),
                  if lts[k - 1].ltype == LightAmbient then Mul(lts[k - 1].color, cb) else Black)
  }

  /** Without point lights the result is the sum of the ambient terms,
      whatever N, V and p are. */
  lemma {:induction false} NoPointLightsIsAmbient(m: Libm, lts: seq<Light>, k: int, n: Vector, v: Vector,
                                                  p: Point, cb: Color, cs: Color, s: real, oneSided: int)
    requires 0 <= k <= |lts|
    requires forall i :: 0 <= i < k ==> lts[i].ltype != LightPoint
    ensures SumLights(m, lts, k, n, v, p, cb, cs, s, oneSided) == AmbientSum(lts, k, cb)
  {
    if k > 0 {
      NoPointLightsIsAmbient(m, lts, k - 1, n, v, p, cb, cs, s, oneSided);
    }
  }

  /** A single ambient light gives exactly Cl·Cb. */
  lemma SingleAmbient(m: Libm, l: Lights, n: Vector, v: Vector, p: Point,
                      cb: Color, cs: Color, s: real, oneSided: int)
    requires l.Valid() && l.nLights == 1 && l.light[0].ltype == LightAmbient
    ensures Shading(m, l, n, v, p, cb, cs, s, oneSided) == Mul(l.light[0].color, cb)
  {
    var n', v', p' := Normalize(m, n), Normalize(m, v), PointNormalize(p);
    var c0 := Contribution(m, l.light[0], n', v', p', cb, cs, s, oneSided);
    assert SumLights(m, l.light, 1, n', v', p', cb, cs, s, oneSided) == ColorSum(Black, c0);
    ColorSumMonoid(c0, Black, Black);
  }

  /** Adding a light adds exactly its own contribution to the shading of
      every point. */
  lemma AddThenShade(m: Libm, l: Lights, ltype: LightType, c: Option<Color>, dir: Option<Vector>,
                     pos: Option<Point>, cutoff: real, sharpness: real,
                     n: Vector, v: Vector, p: Point, cb: Color, cs: Color, s: real, oneSided: int)
    requires l.Valid() && l.nLights < MaxLights - 1
    ensures var l' := Add(l, ltype, c, dir, pos, cutoff, sharpness);
            Shading(m, l', n, v, p, cb, cs, s, oneSided)
            == ColorSum(Shading(m, l, n, v, p, cb, cs, s, oneSided),
                        Contribution(m, l'.light[l.nLights], Normalize(m, n), Normalize(m, v),
                                     PointNormalize(p), cb, cs, s, oneSided))
  {
    var l' := Add(l, ltype, c, dir, pos, cutoff, sharpness);
    SumLightsPrefix(m, l.light, l'.light, l.nLights, Normalize(m, n), Normalize(m, v),
                    PointNormalize(p), cb, cs, s, oneSided);
  }

  /** The sum over [0, k) depends only on the first k lights. */
  lemma {:induction false} SumLightsPrefix(m: Libm, a: seq<Light>, b: seq<Light>, k: int, n: Vector, v: Vector,
                                           p: Point, cb: Color, cs: Color, s: real, oneSided: int)
    requires 0 <= k <= |a| && k <= |b|
    requires forall i :: 0 <= i < k ==> a[i] == b[i]
    ensures SumLights(m, a, k, n, v, p, cb, cs, s, oneSided) == SumLights(m, b, k, n, v, p, cb, cs, s, oneSided)
  {
    if k > 0 {
      SumLightsPrefix(m, a, b, k - 1, n, v, p, cb, cs, s, oneSided);
    }
  }

  /** L·N for the normalised N and the unit vector from the normalised
      point p to the light. */
  function Facing(m: Libm, lt: Light, n: Vector, p: Point): real
  {
    Dot(ToLight(m, lt, PointNormalize(p)), Normalize(m, n))
  }

  /** Light_diffuse: Cb·Cl·(L·N); black for a one-sided surface facing
      away from the light, and Cb·Cl·|L·N| for a two-sided one. */
  function Diffuse(m: Libm, lt: Light, n: Vector, v: Vector, p: Point,
                   cb: Color, s: real, oneSided: int): (c: Color)
    ensures oneSided == 1 && Facing(m, lt, n, p) < 0.0 ==> c == Black
    ensures oneSided == 0 ==> c == ScaleBy(Mul(cb, lt.color), Abs(Facing(m, lt, n, p)))
    ensures Facing(m, lt, n, p) >= 0.0 ==> c == ScaleBy(Mul(cb, lt.color), Facing(m, lt, n, p))
  {
    var v1 := Facing(m, lt, n, p);
    if oneSided == 1 && v1 < 0.0 then Black
    else
      var d := if oneSided == 0 && v1 < 0.0 then -v1 else v1;
      ScaleBy(Mul(cb, lt.color), d)
  }

  function Abs(x: real): real
  {
    if x < 0.0 then -x else x
  }

  /** Light_diffuse is the diffuse half of a point light's contribution:
      with a black surface colour the specular half vanishes. */
  lemma DiffuseIsPointContribution(m: Libm, lt: Light, n: Vector, v: Vector, p: Point,
                                   cb: Color, s: real, oneSided: int)
    requires lt.ltype == LightPoint && (oneSided == 0 || oneSided == 1)
    ensures Diffuse(m, lt, n, v, p, cb, s, oneSided)
            == Contribution(m, lt, Normalize(m, n), Normalize(m, v), PointNormalize(p), cb, Black, s, oneSided)
  {
    var nn, pp := Normalize(m, n), PointNormalize(p);
    var cosL := Dot(ToLight(m, lt, pp), nn);
    assert Facing(m, lt, n, p) == cosL;
    if !(oneSided == 1 && cosL < 0.0) {
      var back := oneSided == 0 && cosL < 0.0;
      var cosH := (cosL + Dot(Normalize(m, v), nn)) / 2.0;
      var d := ScaleBy(Mul(cb, lt.color), if back then -cosL else cosL);
      NoSpecularWhenBlack(lt.color, m.pow(if back then -cosH else cosH, s));
      ColorSumMonoid(d, Black, Black);
    }
  }

  /** With a black surface colour the specular term Cl·Cs·sp is zero. */
  lemma NoSpecularWhenBlack(cl: Color, sp: real)
    ensures ScaleBy(Mul(cl, Black), sp) == Black
  {
    assert cl.r * 0.0 * sp == 0.0 && cl.g * 0.0 * sp == 0.0 && cl.b * 0.0 * sp == 0.0;
  }
}

/** Drawing attributes and textures (lib/drawstate.c,
    include/cb_drawstate.h). */
module DrawStates {
  import opened CNum
  import opened Colors
  import opened Geometry
  import opened Images

  datatype ShadeMethod = ShadeFrame | ShadeConstant | ShadeFlat | ShadeGouraud | ShadePhong | ShadeDepth

  datatype TextureType = TextureColor | TextureNormal | TextureHeight

  datatype Texture = Texture(img: Image, textureType: TextureType)

  datatype TexCoord = TexCoord(s: real, t: real)

  /** The nine DrawState fields.  `tex` is a pointer in C; `None` is NULL. */
  datatype DrawState = DrawState(
    color: Color,
    flatColor: Color,
    body: Color,
    surface: Color,
    surfaceCoeff: real,
    shade: ShadeMethod,
    zBufferFlag: int,
    viewer: Point,
    tex: Option<Texture>)

  /** DrawState_create.  The C leaves flatColor and tex uninitialised;
      the model uses black and no texture, and the contract is silent
      about both. */
  function Create(): (ds: DrawState)
    ensures ds.color == White && ds.body == White && ds.surface == White
    ensures ds.surfaceCoeff == 0.0 && ds.shade == ShadeGouraud && ds.zBufferFlag == 1
    ensures ds.viewer == Vec4(0.0, 0.0, 0.0, 1.0)
  {
    DrawState(White, Black, White, White, 0.0, ShadeGouraud, 1, PointSet(0.0, 0.0, 0.0), None)
  }

  /** DrawState_setColor. */
  function SetColor(s: DrawState, c: Color): (r: DrawState)
    ensures r.color == c
    ensures r.(color := s.color) == s
  {
    s.(color := c)
  }

  /** DrawState_setBody. */
  function SetBody(s: DrawState, c: Color): (r: DrawState)
    ensures r.body == c
    ensures r.(body := s.body) == s
  {
    s.(body := c)
  }

  /** DrawState_setSurface. */
  function SetSurface(s: DrawState, c: Color): (r: DrawState)
    ensures r.surface == c
    ensures r.(surface := s.surface) == s
  {
    s.(surface := c)
  }

  /** DrawState_setSurfaceCoeff. */
  function SetSurfaceCoeff(s: DrawState, f: real): (r: DrawState)
    ensures r.surfaceCoeff == f
    ensures r.(surfaceCoeff := s.surfaceCoeff) == s
  {
    s.(surfaceCoeff := f)
  }

  /** Setters of different fields commute, and the last of two writes to
      the same field wins. */
  lemma SettersCommute(s: DrawState, a: Color, b: Color, c: Color, f: real, g: real)
    ensures SetBody(SetColor(s, a), b) == SetColor(SetBody(s, b), a)
    ensures SetSurface(SetBody(s, b), c) == SetBody(SetSurface(s, c), b)
    ensures SetSurfaceCoeff(SetColor(s, a), f) == SetColor(SetSurfaceCoeff(s, f), a)
    ensures SetColor(SetColor(s, a), b) == SetColor(s, b)
    ensures SetSurfaceCoeff(SetSurfaceCoeff(s, f), g) == SetSurfaceCoeff(s, g)
  {
  }

  // --------------------------------------------------------- Texture_value

  /** One step of the box-widening loop: the lower bound moves to the
      truncated corner coordinate when the corner lies below it. */
  function WidenLow(lo: int, v: real): int
  {
    if lo as real > v then Trunc(v) else lo
  }

  /** One step of the box-widening loop for the upper bound. */
  function WidenHigh(hi: int, v: real): int
  {
    if (hi as real) < v then Trunc(v) else hi
  }

  function Min(a: int, b: int): int { if a <= b then a else b }
  function Max(a: int, b: int): int { if a >= b then a else b }

  /** Widening an integer bound by a corner is the same as taking the
      minimum with the corner's truncated coordinate. */
  lemma WidenLowIsMin(lo: int, v: real)
    ensures WidenLow(lo, v) == Min(lo, Trunc(v))
  {
  }

  lemma WidenHighIsMax(hi: int, v: real)
    ensures WidenHigh(hi, v) == Max(hi, Trunc(v))
  {
  }

  /** The integer box [x0, x1) x [y0, y1) that Texture_value averages over. */
  datatype Box = Box(x0: int, x1: int, y0: int, y1: int)

  /** The box as Texture_value computes it: start from corners 0 and 1,
      then widen over all four corners in order. */
  function TextureBox(corner: seq<Point>): (b: Box)
    requires |corner| == 4
    ensures b.x0 == Min(Min(Trunc(corner[0].x), Trunc(corner[1].x)), Min(Trunc(corner[2].x), Trunc(corner[3].x)))
    ensures b.x1 == Max(Max(Trunc(corner[0].x), Trunc(corner[1].x)), Max(Trunc(corner[2].x), Trunc(corner[3].x)))
    ensures b.y0 == Min(Min(Trunc(corner[0].y), Trunc(corner[1].y)), Min(Trunc(corner[2].y), Trunc(corner[3].y)))
    ensures b.y1 == Max(Max(Trunc(corner[0].y), Trunc(corner[1].y)), Max(Trunc(corner[2].y), Trunc(corner[3].y)))
    ensures b.x0 <= b.x1 && b.y0 <= b.y1
  {
    var x0 := Trunc(corner[0].x);
    var x1 := Trunc(corner[1].x);
    var y0 := Trunc(corner[0].y);
    var y1 := Trunc(corner[1].y);
    WidenLowIsMin(x0, corner[0].x); WidenLowIsMin(WidenLow(x0, corner[0].x), corner[1].x);
    WidenLowIsMin(WidenLow(WidenLow(x0, corner[0].x), corner[1].x), corner[2].x);
    WidenLowIsMin(WidenLow(WidenLow(WidenLow(x0, corner[0].x), corner[1].x), corner[2].x), corner[3].x);
    WidenLowIsMin(y0, corner[0].y); WidenLowIsMin(WidenLow(y0, corner[0].y), corner[1].y);
    WidenLowIsMin(WidenLow(WidenLow(y0, corner[0].y), corner[1].y), corner[2].y);
    WidenLowIsMin(WidenLow(WidenLow(WidenLow(y0, corner[0].y), corner[1].y), corner[2].y), corner[3].y);
    WidenHighIsMax(x1, corner[0].x); WidenHighIsMax(WidenHigh(x1, corner[0].x), corner[1].x);
    WidenHighIsMax(WidenHigh(WidenHigh(x1, corner[0].x), corner[1].x), corner[2].x);
    WidenHighIsMax(WidenHigh(WidenHigh(WidenHigh(x1, corner[0].x), corner[1].x), corner[2].x), corner[3].x);
    WidenHighIsMax(y1, corner[0].y); WidenHighIsMax(WidenHigh(y1, corner[0].y), corner[1].y);
    WidenHighIsMax(WidenHigh(WidenHigh(y1, corner[0].y), corner[1].y), corner[2].y);
    WidenHighIsMax(WidenHigh(WidenHigh(WidenHigh(y1, corner[0].y), corner[1].y), corner[2].y), corner[3].y);
    Box(WidenLow(WidenLow(WidenLow(WidenLow(x0, corner[0].x), corner[1].x), corner[2].x), corner[3].x),
        WidenHigh(WidenHigh(WidenHigh(WidenHigh(x1, corner[0].x), corner[1].x), corner[2].x), corner[3].x),
        WidenLow(WidenLow(WidenLow(WidenLow(y0, corner[0].y), corner[1].y), corner[2].y), corner[3].y),
        WidenHigh(WidenHigh(WidenHigh(WidenHigh(y1, corner[0].y), corner[1].y), corner[2].y), corner[3].y))
  }

  /** Sum of Image_getColor over rows [j, y1) of column i (texels outside
      the image count as black). */
  function ColumnSum(img: Image, i: int, j: int, y1: int): Color
    requires img.Valid()
    decreases y1 - j
  {
    if j >= y1 then Black else ColorSum(GetColor(img, j, i), ColumnSum(img, i, j + 1, y1))
  }

  /** Sum of Image_getColor over columns [i, x1) x rows [y0, y1). */
  function BoxSum(img: Image, i: int, x1: int, y0: int, y1: int): Color
    requires img.Valid()
    decreases x1 - i
  {
    if i >= x1 then Black else ColorSum(ColumnSum(img, i, y0, y1), BoxSum(img, i + 1, x1, y0, y1))
  }

  /** Texture_value: the mean texel colour over the widened box.  A box
      of zero area divides by zero in C; that result is outside the model. */
  function BoxArea(b: Box): int
  {
    (b.x1 - b.x0) * (b.y1 - b.y0)
  }

  /** Texture_value: the mean texel colour over the widened box.  A box
      of zero area divides by zero in C; that result is outside the model. */
  function TextureValue(tex: Texture, corner: seq<Point>): (c: Color)
    requires |corner| == 4 && tex.img.Valid()
    ensures var b := TextureBox(corner);
            BoxArea(b) != 0 ==> ScaleBy(c, BoxArea(b) as real) == BoxSum(tex.img, b.x0, b.x1, b.y0, b.y1)
  {
    var b := TextureBox(corner);
    var sum := BoxSum(tex.img, b.x0, b.x1, b.y0, b.y1);
    MeanScales(sum, BoxArea(b) as real);
    Mean(sum, BoxArea(b) as real)
  }

  /** Channel-wise division of a colour sum by a count. */
  function Mean(sum: Color, n: real): Color
  {
    Color(Quot(sum.r, n), Quot(sum.g, n), Quot(sum.b, n))
  }

  lemma MeanScales(sum: Color, n: real)
    ensures n != 0.0 ==> ScaleBy(Mean(sum, n), n) == sum
  {
  }

  /** k added to itself n times. */
  function Repeat(k: Color, n: int): Color
    decreases n
  {
    if n <= 0 then Black else ColorSum(k, Repeat(k, n - 1))
  }

  /** A column whose texels all have colour k sums to k repeated over its height. */
  lemma {:induction false} ColumnSumUniform(img: Image, i: int, j: int, y1: int, k: Color)
    requires img.Valid() && j <= y1
    requires forall jj :: j <= jj < y1 ==> GetColor(img, jj, i) == k
    ensures ColumnSum(img, i, j, y1) == Repeat(k, y1 - j)
    decreases y1 - j
  {
    if j < y1 {
      ColumnSumUniform(img, i, j + 1, y1, k);
    }
  }

  /** A box whose texels all have colour k sums to the uniform column
      repeated over its width. */
  lemma {:induction false} BoxSumUniform(img: Image, i: int, x1: int, y0: int, y1: int, k: Color)
    requires img.Valid() && i <= x1 && y0 <= y1
    requires forall ii, jj :: i <= ii < x1 && y0 <= jj < y1 ==> GetColor(img, jj, ii) == k
    ensures BoxSum(img, i, x1, y0, y1) == Repeat(Repeat(k, y1 - y0), x1 - i)
    decreases x1 - i
  {
    if i < x1 {
      var col := Repeat(k, y1 - y0);
      ColumnSumUniform(img, i, y0, y1, k);
      BoxSumUniform(img, i + 1, x1, y0, y1, k);
      calc {
        BoxSum(img, i, x1, y0, y1);
        ColorSum(ColumnSum(img, i, y0, y1), BoxSum(img, i + 1, x1, y0, y1));
        ColorSum(col, Repeat(col, x1 - (i + 1)));
      }
    }
  }

  lemma CastMul(w: int, h: int)
    ensures (w * h) as real == (w as real) * (h as real)
  {
  }

  /** Repeating k n times multiplies each channel by n. */
  lemma {:induction false} RepeatScales(k: Color, n: nat)
    ensures Repeat(k, n).r == (n as real) * k.r
    ensures Repeat(k, n).g == (n as real) * k.g
    ensures Repeat(k, n).b == (n as real) * k.b
  {
    if n > 0 {
      RepeatScales(k, n - 1);
      assert (n as real) * k.r == ((n - 1) as real) * k.r + k.r;
      assert (n as real) * k.g == ((n - 1) as real) * k.g + k.g;
      assert (n as real) * k.b == ((n - 1) as real) * k.b + k.b;
    }
  }

  lemma QuotCancel(a: real, n: real)
    requires n != 0.0
    ensures Quot(n * a, n) == a
  {
  }

  /** s = w·c and c = h·k give s / (w·h) = k. */
  lemma MeanOfProduct(s: real, c: real, k: real, w: nat, h: nat)
    requires s == (w as real) * c && c == (h as real) * k && w > 0 && h > 0
    ensures Quot(s, (w * h) as real) == k
  {
    CastMul(w, h);
    assert s == ((w as real) * (h as real)) * k;
    QuotCancel(k, (w as real) * (h as real));
  }

  // One lemma per channel keeps each proof obligation small.

  lemma UniformMeanR(k: Color, w: nat, h: nat)
    requires w > 0 && h > 0
    ensures Quot(Repeat(Repeat(k, h), w).r, (w * h) as real) == k.r
  {
    RepeatScales(k, h);
    RepeatScales(Repeat(k, h), w);
    MeanOfProduct(Repeat(Repeat(k, h), w).r, Repeat(k, h).r, k.r, w, h);
  }

  lemma UniformMeanG(k: Color, w: nat, h: nat)
    requires w > 0 && h > 0
    ensures Quot(Repeat(Repeat(k, h), w).g, (w * h) as real) == k.g
  {
    RepeatScales(k, h);
    RepeatScales(Repeat(k, h), w);
    MeanOfProduct(Repeat(Repeat(k, h), w).g, Repeat(k, h).g, k.g, w, h);
  }

  lemma UniformMeanB(k: Color, w: nat, h: nat)
    requires w > 0 && h > 0
    ensures Quot(Repeat(Repeat(k, h), w).b, (w * h) as real) == k.b
  {
    RepeatScales(k, h);
    RepeatScales(Repeat(k, h), w);
    MeanOfProduct(Repeat(Repeat(k, h), w).b, Repeat(k, h).b, k.b, w, h);
  }

  /** The mean over a non-empty box of texels that all have colour k is k. */
  lemma MeanOfUniformBox(img: Image, b: Box, k: Color)
    requires img.Valid() && b.x0 < b.x1 && b.y0 < b.y1
    requires forall ii, jj :: b.x0 <= ii < b.x1 && b.y0 <= jj < b.y1 ==> GetColor(img, jj, ii) == k
    ensures Mean(BoxSum(img, b.x0, b.x1, b.y0, b.y1), BoxArea(b) as real) == k
  {
    var w := b.x1 - b.x0;
    var h := b.y1 - b.y0;
    var s := BoxSum(img, b.x0, b.x1, b.y0, b.y1);
    assert s == Repeat(Repeat(k, h), w) by {
      BoxSumUniform(img, b.x0, b.x1, b.y0, b.y1, k);
    }
    assert Mean(Repeat(Repeat(k, h), w), BoxArea(b) as real) == k by {
      UniformMean(k, w, h, BoxArea(b));
    }
  }

  lemma UniformMean(k: Color, w: nat, h: nat, area: int)
    requires w > 0 && h > 0 && area == w * h
    ensures Mean(Repeat(Repeat(k, h), w), area as real) == k
  {
    UniformMeanR(k, w, h);
    UniformMeanG(k, w, h);
    UniformMeanB(k, w, h);
  }

  /** Averaging a region of one colour returns that colour: the mean of a
      uniform box is exact whenever the box is not empty. */
  lemma TextureValueUniform(tex: Texture, corner: seq<Point>, k: Color)
    requires |corner| == 4 && tex.img.Valid()
    requires var b := TextureBox(corner); b.x0 < b.x1 && b.y0 < b.y1
    requires var b := TextureBox(corner);
             forall ii, jj :: b.x0 <= ii < b.x1 && b.y0 <= jj < b.y1 ==> GetColor(tex.img, jj, ii) == k
    ensures TextureValue(tex, corner) == k
  {
    MeanOfUniformBox(tex.img, TextureBox(corner), k);
  }

}

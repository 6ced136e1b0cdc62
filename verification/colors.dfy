/** Colours (the Color_* functions of lib/image.c): three channels. */
module Colors {

  datatype Color = Color(r: real, g: real, b: real)

  const Black := Color(0.0, 0.0, 0.0)
  const White := Color(1.0, 1.0, 1.0)

  /** Color_set. */
  function ColorSet(c0: real, c1: real, c2: real): (c: Color)
    ensures c.r == c0 && c.g == c1 && c.b == c2
  {
    Color(c0, c1, c2)
  }

  /** Color_sum: channel-wise sum. */
  function ColorSum(a: Color, b: Color): (c: Color)
    ensures c.r == a.r + b.r && c.g == a.g + b.g && c.b == a.b + b.b
  {
    Color(a.r + b.r, a.g + b.g, a.b + b.b)
  }

  /** Channel-wise product, as the shading code writes it per channel. */
  function Mul(a: Color, b: Color): (c: Color)
    ensures c.r == a.r * b.r && c.g == a.g * b.g && c.b == a.b * b.b
  {
    Color(a.r * b.r, a.g * b.g, a.b * b.b)
  }

  /** Every channel multiplied by k. */
  function ScaleBy(a: Color, k: real): (c: Color)
    ensures c.r == a.r * k && c.g == a.g * k && c.b == a.b * k
  {
    Color(a.r * k, a.g * k, a.b * k)
  }

  /** Black is the unit of Color_sum, which is commutative and associative. */
  lemma ColorSumMonoid(a: Color, b: Color, c: Color)
    ensures ColorSum(a, Black) == a && ColorSum(Black, a) == a
    ensures ColorSum(a, b) == ColorSum(b, a)
    ensures ColorSum(ColorSum(a, b), c) == ColorSum(a, ColorSum(b, c))
  {
  }
}

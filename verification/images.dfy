/** The floating-point framebuffer of lib/image.c.

    Pixel (r, c) of an image with `cols` columns lives at `data[r*cols + c]`.
    The checked accessors (Image_getz, Image_setz, Image_getColor,
    Image_setColor) ignore out-of-range coordinates; the unchecked ones
    (Image_getf, Image_setf, Image_getc, Image_setc) require them in range. */
module Images {
  import opened CNum
  import opened Colors

  datatype FPixel = FPixel(rgb: Color, a: real, z: real)

  datatype Image = Image(rows: int, cols: int, data: seq<FPixel>)
  {
    ghost predicate Valid()
    {
      rows >= 0 && cols >= 0 && |data| == rows * cols
    }

    predicate InBounds(r: int, c: int)
    {
      0 <= r < rows && 0 <= c < cols
    }
  }

  /** Row-major addressing stays inside the data array. */
  lemma IndexInRange(rows: int, cols: int, r: int, c: int)
    requires 0 <= r < rows && 0 <= c < cols
    ensures 0 <= r * cols + c < rows * cols
  {
    MulMonotone(r, rows - 1, cols);
    MulMonotone(0, r, cols);
    assert (rows - 1) * cols == rows * cols - cols;
  }

  /** Distinct coordinates have distinct row-major indices. */
  lemma IndexInjective(cols: int, r1: int, c1: int, r2: int, c2: int)
    requires 0 <= c1 < cols && 0 <= c2 < cols
    requires r1 * cols + c1 == r2 * cols + c2
    ensures r1 == r2 && c1 == c2
  {
    if r1 < r2 {
      MulMonotone(r1 + 1, r2, cols);
    } else if r2 < r1 {
      MulMonotone(r2 + 1, r1, cols);
    }
  }

  /** Image_getf: the pixel at (r, c), unchecked. */
  function Getf(img: Image, r: int, c: int): FPixel
    requires img.Valid() && img.InBounds(r, c)
  {
    IndexInRange(img.rows, img.cols, r, c);
    img.data[r * img.cols + c]
  }

  /** Image_setf: replaces the pixel at (r, c), unchecked. */
  function Setf(img: Image, r: int, c: int, p: FPixel): (img': Image)
    requires img.Valid() && img.InBounds(r, c)
    ensures img'.Valid() && img'.rows == img.rows && img'.cols == img.cols
    ensures Getf(img', r, c) == p
    ensures forall r2, c2 :: img.InBounds(r2, c2) && (r2 != r || c2 != c) ==>
              Getf(img', r2, c2) == Getf(img, r2, c2)
  {
    IndexInRange(img.rows, img.cols, r, c);
    var img' := img.(data := img.data[r * img.cols + c := p]);
    forall r2, c2 | img.InBounds(r2, c2) && (r2 != r || c2 != c)
      ensures Getf(img', r2, c2) == Getf(img, r2, c2)
    {
      IndexInRange(img.rows, img.cols, r2, c2);
      if r2 * img.cols + c2 == r * img.cols + c {
        IndexInjective(img.cols, r2, c2, r, c);
      }
    }
    img'
  }

  /** Image_getc: channel b (0, 1 or 2) of pixel (r, c), unchecked. */
  function Getc(img: Image, r: int, c: int, b: int): (v: real)
    requires img.Valid() && img.InBounds(r, c) && 0 <= b < 3
    ensures b == 0 ==> v == Getf(img, r, c).rgb.r
    ensures b == 1 ==> v == Getf(img, r, c).rgb.g
    ensures b == 2 ==> v == Getf(img, r, c).rgb.b
  {
    var rgb := Getf(img, r, c).rgb;
    if b == 0 then rgb.r else if b == 1 then rgb.g else rgb.b
  }

  /** Image_setc: writes channel b of pixel (r, c), unchecked. */
  function Setc(img: Image, r: int, c: int, b: int, v: real): (img': Image)
    requires img.Valid() && img.InBounds(r, c) && 0 <= b < 3
    ensures img'.Valid() && img'.rows == img.rows && img'.cols == img.cols
    ensures Getc(img', r, c, b) == v
    ensures Getf(img', r, c).a == Getf(img, r, c).a && Getf(img', r, c).z == Getf(img, r, c).z
    ensures forall b2 :: 0 <= b2 < 3 && b2 != b ==> Getc(img', r, c, b2) == Getc(img, r, c, b2)
    ensures forall r2, c2 :: img.InBounds(r2, c2) && (r2 != r || c2 != c) ==>
              Getf(img', r2, c2) == Getf(img, r2, c2)
  {
    var p := Getf(img, r, c);
    var rgb := if b == 0 then p.rgb.(r := v) else if b == 1 then p.rgb.(g := v) else p.rgb.(b := v);
    Setf(img, r, c, p.(rgb := rgb))
  }

  /** Image_getz: the stored depth in range, 0 out of range. */
  function GetZ(img: Image, r: int, c: int): (z: real)
    requires img.Valid()
    ensures img.InBounds(r, c) ==> z == Getf(img, r, c).z
    ensures !img.InBounds(r, c) ==> z == 0.0
  {
    if img.InBounds(r, c) then Getf(img, r, c).z else 0.0
  }

  /** Image_setz: writes the depth of (r, c) only; a no-op out of range. */
  function SetZ(img: Image, r: int, c: int, z: real): (img': Image)
    requires img.Valid()
    ensures img'.Valid() && img'.rows == img.rows && img'.cols == img.cols
    ensures img.InBounds(r, c) ==>
              Getf(img', r, c) == Getf(img, r, c).(z := z)
    ensures forall r2, c2 :: img.InBounds(r2, c2) && (r2 != r || c2 != c) ==>
              Getf(img', r2, c2) == Getf(img, r2, c2)
    ensures !img.InBounds(r, c) ==> img' == img
  {
    if img.InBounds(r, c) then Setf(img, r, c, Getf(img, r, c).(z := z)) else img
  }

  /** Image_getColor: the pixel's rgb in range, black out of range. */
  function GetColor(img: Image, r: int, c: int): (col: Color)
    requires img.Valid()
    ensures img.InBounds(r, c) ==> col == Getf(img, r, c).rgb
    ensures !img.InBounds(r, c) ==> col == Black
  {
    if img.InBounds(r, c) then Getf(img, r, c).rgb else Black
  }

  /** Image_setColor: writes the rgb of (r, c) only (alpha and depth are
      kept); a no-op out of range.  There is no clamping. */
  function SetColor(img: Image, r: int, c: int, col: Color): (img': Image)
    requires img.Valid()
    ensures img'.Valid() && img'.rows == img.rows && img'.cols == img.cols
    ensures img.InBounds(r, c) ==>
              Getf(img', r, c) == Getf(img, r, c).(rgb := col)
    ensures forall r2, c2 :: img.InBounds(r2, c2) && (r2 != r || c2 != c) ==>
              Getf(img', r2, c2) == Getf(img, r2, c2)
    ensures !img.InBounds(r, c) ==> img' == img
  {
    if img.InBounds(r, c) then Setf(img, r, c, Getf(img, r, c).(rgb := col)) else img
  }

  /** Reading back what was written: getColor after setColor, getz after setz. */
  lemma SetGetRoundTrip(img: Image, r: int, c: int, col: Color, z: real)
    requires img.Valid() && img.InBounds(r, c)
    ensures GetColor(SetColor(img, r, c, col), r, c) == col
    ensures GetZ(SetZ(img, r, c, z), r, c) == z
    ensures GetZ(SetColor(img, r, c, col), r, c) == GetZ(img, r, c)
    ensures GetColor(SetZ(img, r, c, z), r, c) == GetColor(img, r, c)
  {
  }

  /** Image_alloc: rows x cols pixels with alpha 0 and depth 1.  The C
      leaves rgb unset; the model fills it with `junk`, and the contract
      says nothing about it. */
  function Alloc(rows: int, cols: int, junk: Color): (img: Image)
    requires rows >= 0 && cols >= 0
    ensures img.Valid() && img.rows == rows && img.cols == cols
    ensures forall r, c :: img.InBounds(r, c) ==> Getf(img, r, c).a == 0.0 && Getf(img, r, c).z == 1.0
  {
    var img := Image(rows, cols, seq(rows * cols, i => FPixel(junk, 0.0, 1.0)));
    forall r, c | img.InBounds(r, c)
      ensures Getf(img, r, c).a == 0.0 && Getf(img, r, c).z == 1.0
    {
      IndexInRange(rows, cols, r, c);
    }
    img
  }

  /** Image_clear: no data, zero rows and columns. */
  function Clear(img: Image): (img': Image)
    ensures img'.Valid() && img'.rows == 0 && img'.cols == 0 && img'.data == []
  {
    Image(0, 0, [])
  }

  /** Image_reset: every pixel black with depth 1; alpha is kept. */
  function Reset(img: Image): (img': Image)
    requires img.Valid()
    ensures img'.Valid() && img'.rows == img.rows && img'.cols == img.cols
    ensures forall r, c :: img.InBounds(r, c) ==>
              Getf(img', r, c) == FPixel(Black, Getf(img, r, c).a, 1.0)
  {
    var img' := img.(data := seq(|img.data|, i requires 0 <= i < |img.data| =>
                                   FPixel(Black, img.data[i].a, 1.0)));
    forall r, c | img.InBounds(r, c)
      ensures Getf(img', r, c) == FPixel(Black, Getf(img, r, c).a, 1.0)
    {
      IndexInRange(img.rows, img.cols, r, c);
    }
    img'
  }

  /** One channel of Image_writePPM: `(unsigned char)(255 * min(v, 1))`.
      The conversion is defined only when 255·v > -1. */
  function PpmChannel(v: real): (b: int)
    requires 255.0 * v > -1.0
    ensures 0 <= b <= 255
    ensures v >= 1.0 ==> b == 255
    ensures 0.0 <= v < 1.0 ==> b as real <= 255.0 * v < b as real + 1.0
    ensures v < 0.0 ==> b == 0
  {
    Trunc(255.0 * (if v > 1.0 then 1.0 else v))
  }

  /** Larger channel values never give smaller bytes. */
  lemma PpmChannelMonotone(u: real, v: real)
    requires 255.0 * u > -1.0 && u <= v
    ensures PpmChannel(u) <= PpmChannel(v)
  {
  }

  /** The bytes Image_writePPM hands to writePPM, pixel by pixel in
      data order. */
  function PpmBytes(img: Image): (bytes: seq<(int, int, int)>)
    requires img.Valid()
    requires forall i :: 0 <= i < |img.data| ==>
               255.0 * img.data[i].rgb.r > -1.0 && 255.0 * img.data[i].rgb.g > -1.0
               && 255.0 * img.data[i].rgb.b > -1.0
    ensures |bytes| == img.rows * img.cols
    ensures forall i :: 0 <= i < |bytes| ==>
              bytes[i] == (PpmChannel(img.data[i].rgb.r), PpmChannel(img.data[i].rgb.g),
                           PpmChannel(img.data[i].rgb.b))
  {
    seq(|img.data|, i requires 0 <= i < |img.data| && 255.0 * img.data[i].rgb.r > -1.0
                               && 255.0 * img.data[i].rgb.g > -1.0 && 255.0 * img.data[i].rgb.b > -1.0 =>
          (PpmChannel(img.data[i].rgb.r), PpmChannel(img.data[i].rgb.g), PpmChannel(img.data[i].rgb.b)))
  }
}

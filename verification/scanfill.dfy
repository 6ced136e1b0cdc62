/** The scanline fill proper: fillScan, Polygon_drawFill and
    Polygon_drawShade (lib/scanlineSkeleton.c:358-532, 599-692).

    Along a scanline the active edges are taken in pairs; between the
    columns (int)x of the two edges of a pair the fill steps 1/z and the
    z-divided colour, normal, world position, s and t by a constant
    per-column increment and shades each column inside the image. */
module ScanFill {
  import opened CNum
  import opened Colors
  import opened Geometry
  import opened Images
  import opened DrawStates
  import Lighting
  import opened Edges
  import opened EdgeTable
  import Polygons

  /** The running values of fillScan at one column: 1/z, and colour,
      normal, world position, s and t each divided by z. */
  datatype Sample = Sample(z: real, c: Color, n: Vector, v: Point, s: real, t: real)

  /** One column further: every running value gains its per-column
      increment; only x, y and z of the normal are stepped. */
  function Step(cur: Sample, d: Sample): Sample
  {
    Sample(cur.z + d.z,
           ColorSum(cur.c, d.c),
           Vec4(cur.n.x + d.n.x, cur.n.y + d.n.y, cur.n.z + d.n.z, cur.n.w),
           Vec4(cur.v.x + d.v.x, cur.v.y + d.v.y, cur.v.z + d.v.z, cur.v.w + d.v.w),
           cur.s + d.s, cur.t + d.t)
  }

  /** k columns further. */
  function Steps(cur: Sample, d: Sample, k: nat): Sample
    decreases k
  {
    if k == 0 then cur else Steps(Step(cur, d), d, k - 1)
  }

  /** After k columns the running values have moved k increments: the fill
      is linear along the span. */
  lemma {:induction false} StepsLinear(cur: Sample, d: Sample, k: nat)
    ensures var a := Steps(cur, d, k);
            && a.z == cur.z + k as real * d.z
            && a.s == cur.s + k as real * d.s
            && a.t == cur.t + k as real * d.t
            && a.c == Color(cur.c.r + k as real * d.c.r, cur.c.g + k as real * d.c.g, cur.c.b + k as real * d.c.b)
    decreases k
  {
    if k > 0 {
      StepsLinear(Step(cur, d), d, k - 1);
    }
  }

  // ------------------------------------------------------------------ spans

  /** The span between the edges of one pair: its first column and the
      column it stops before, the running values at the first column,
      their per-column increments, and the per-row change of s and t that
      the texture lookup uses. */
  datatype Span = Span(start: int, end: int, first: Sample, d: Sample, dsY: real, dtY: real)

  /** The span of the pair (p1, p2).  Increments are (p1 - p2) divided by
      start - end; when start == end no column is filled and the
      increments are never used. */
  function MakeSpan(p1: Edge, p2: Edge): (sp: Span)
    ensures sp.start == Trunc(p1.x) && sp.end == Trunc(p2.x)
    ensures sp.first == Sample(p1.z, p1.c, p1.n, p1.p, p1.s, p1.t)
  {
    var start, end := Trunc(p1.x), Trunc(p2.x);
    var w := (start - end) as real;
    var ds, dt := Quot(p1.s - p2.s, w), Quot(p1.t - p2.t, w);
    Span(start, end,
         Sample(p1.z, p1.c, p1.n, p1.p, p1.s, p1.t),
         Sample(Quot(p1.z - p2.z, w),
                Color(Quot(p1.c.r - p2.c.r, w), Quot(p1.c.g - p2.c.g, w), Quot(p1.c.b - p2.c.b, w)),
                Vec4(Quot(p1.n.x - p2.n.x, w), Quot(p1.n.y - p2.n.y, w), Quot(p1.n.z - p2.n.z, w), 0.0),
                Vec4(Quot(p1.p.x - p2.p.x, w), Quot(p1.p.y - p2.p.y, w), Quot(p1.p.z - p2.p.z, w),
                     Quot(p1.p.w - p2.p.w, w)),
                ds, dt),
         p1.ds - p1.dx * ds, p1.dt - p1.dx * dt)
  }

  /** Stepping from a1 by (a1 - a2) / -k for k columns arrives at a2. */
  lemma ArrivesAt(a1: real, a2: real, k: real)
    requires k != 0.0
    ensures a1 + k * Quot(a1 - a2, -k) == a2
  {
    var q := Quot(a1 - a2, -k);
    assert q * -k == a1 - a2;
    assert k * q == -(q * -k);
  }

  /** A span that runs left to right interpolates exactly between its two
      edges: at its end column the running 1/z, colour, s and t are those
      of the right edge. */
  lemma SpanReachesRightEdge(p1: Edge, p2: Edge)
    requires Trunc(p1.x) < Trunc(p2.x)
    ensures var sp := MakeSpan(p1, p2);
            var a := Steps(sp.first, sp.d, sp.end - sp.start);
            a.z == p2.z && a.s == p2.s && a.t == p2.t && a.c == p2.c
  {
    var sp := MakeSpan(p1, p2);
    var k := sp.end - sp.start;
    StepsLinear(sp.first, sp.d, k);
    var kr := k as real;
    assert (sp.start - sp.end) as real == -kr;
    ArrivesAt(p1.z, p2.z, kr);
    ArrivesAt(p1.s, p2.s, kr);
    ArrivesAt(p1.t, p2.t, kr);
    ArrivesAt(p1.c.r, p2.c.r, kr);
    ArrivesAt(p1.c.g, p2.c.g, kr);
    ArrivesAt(p1.c.b, p2.c.b, kr);
  }

  // ------------------------------------------------------------ one column

  /** A texture, when present, has a well-formed image. */
  ghost predicate TexOk(ds: DrawState)
  {
    ds.tex.Some? ==> ds.tex.value.img.Valid()
  }

  /** The four texture-space corners of a column: (s, t) here, one row
      on, one row and one column on, and one column on. */
  function Corners(cur: Sample, sp: Span): (cs: seq<Point>)
    ensures |cs| == 4
  {
    var s0, t0 := Quot(cur.s, cur.z), Quot(cur.t, cur.z);
    var sY, tY := Quot(sp.dsY, cur.z), Quot(sp.dtY, cur.z);
    var sC, tC := Quot(sp.d.s, cur.z), Quot(sp.d.t, cur.z);
    [PointSet2D(s0, t0), PointSet2D(s0 + sY, t0 + tY),
     PointSet2D(s0 + sC + sY, t0 + tC + tY), PointSet2D(s0 + sC, t0 + tC)]
  }

  /** The colour modulated by the texture lookup when there is a texture. */
  function Textured(ds: DrawState, col: Color, cur: Sample, sp: Span): Color
    requires TexOk(ds)
  {
    if ds.tex.Some? then Mul(col, TextureValue(ds.tex.value, Corners(cur, sp))) else col
  }

  /** ShadeDepth: the drawing colour scaled by 1 - z. */
  function DepthColor(col: Color, z: real): Color
  {
    ScaleBy(col, 1.0 - Quot(1.0, z))
  }

  /** The colour a column receives with the z-buffer on: None for a
      shading method that only updates the depth. */
  function ZColor(m: Libm, light: Lighting.Lights, oneSided: int, ds: DrawState, cur: Sample, sp: Span): Option<Color>
    requires TexOk(ds) && light.Valid()
  {
    match ds.shade
    case ShadeDepth => Some(DepthColor(ds.color, cur.z))
    case ShadeConstant => Some(ds.color)
    case ShadeFlat => Some(ds.flatColor)
    case ShadeGouraud =>
      Some(Textured(ds, Color(Quot(cur.c.r, cur.z), Quot(cur.c.g, cur.z), Quot(cur.c.b, cur.z)), cur, sp))
    case ShadePhong =>
      var v := Vec4(Quot(cur.v.x, cur.z), Quot(cur.v.y, cur.z), Quot(cur.v.z, cur.z), Quot(cur.v.w, cur.z));
      var n := Vec4(Quot(cur.n.x, cur.z), Quot(cur.n.y, cur.z), Quot(cur.n.z, cur.z), 0.0);
      var view := Vec4(ds.viewer.x - v.x, ds.viewer.y - v.y, ds.viewer.z - v.z, 0.0);
      Some(Textured(ds, Lighting.Shading(m, light, n, view, v, ds.body, ds.surface, Polygons.Sharpness, oneSided),
                    cur, sp))
    case ShadeFrame => None
  }

  /** The colour a column receives with the z-buffer off: ShadeFlat and
      ShadePhong draw nothing, and ShadeGouraud writes the z-divided
      colour as it stands. */
  function FlatColor(ds: DrawState, cur: Sample): Option<Color>
  {
    match ds.shade
    case ShadeDepth => Some(DepthColor(ds.color, cur.z))
    case ShadeConstant => Some(ds.color)
    case ShadeGouraud => Some(cur.c)
    case _ => None
  }

  /** The colour fillScan writes at a column, if any. */
  function Written(m: Libm, light: Lighting.Lights, oneSided: int, ds: DrawState, cur: Sample, sp: Span): Option<Color>
    requires TexOk(ds) && light.Valid()
  {
    if ds.zBufferFlag == 1 then ZColor(m, light, oneSided, ds, cur, sp) else FlatColor(ds, cur)
  }

  /** What one column does to its pixel, stated on the pixel alone: with
      the z-buffer on, a nearer 1/z replaces the depth and, if the method
      has a colour, the colour; otherwise the pixel is kept.  With it off,
      only the colour can change. */
  function ShadePixel(p: FPixel, z: real, zbuf: bool, col: Option<Color>): FPixel
  {
    var rgb := if col.Some? then col.value else p.rgb;
    if !zbuf then p.(rgb := rgb)
    else if z > p.z then p.(z := z, rgb := rgb)
    else p
  }

  /** ShadePixel never changes alpha, never lowers the depth with the
      z-buffer on and never touches it with the z-buffer off; with the
      z-buffer on the pixel is either kept or takes the new, strictly
      greater depth. */
  lemma ShadePixelDepth(p: FPixel, z: real, zbuf: bool, col: Option<Color>)
    ensures var p' := ShadePixel(p, z, zbuf, col);
            && p'.a == p.a
            && (zbuf ==> p'.z >= p.z && (p' == p || (p'.z == z && z > p.z)))
            && (!zbuf ==> p'.z == p.z)
  {
  }

  /** One column of fillScan: nothing outside the image's columns;
      otherwise the depth test (z-buffer on) and the write. */
  function Plot(m: Libm, light: Lighting.Lights, oneSided: int, ds: DrawState,
                img: Image, scan: int, i: int, cur: Sample, sp: Span): (img': Image)
    requires img.Valid() && TexOk(ds) && light.Valid()
    ensures img'.Valid() && img'.rows == img.rows && img'.cols == img.cols
    ensures forall r, c :: img.InBounds(r, c) && (r != scan || c != i) ==> Getf(img', r, c) == Getf(img, r, c)
    ensures img.InBounds(scan, i) ==>
              Getf(img', scan, i) == ShadePixel(Getf(img, scan, i), cur.z, ds.zBufferFlag == 1,
                                                Written(m, light, oneSided, ds, cur, sp))
  {
    if i >= img.cols || i < 0 then img
    else if ds.zBufferFlag == 1 then
      if cur.z > GetZ(img, scan, i) then
        var img1 := SetZ(img, scan, i, cur.z);
        match ZColor(m, light, oneSided, ds, cur, sp)
        case Some(col) => Images.SetColor(img1, scan, i, col)
        case None => img1
      else img
    else
      match FlatColor(ds, cur)
      case Some(col) => Images.SetColor(img, scan, i, col)
      case None => img
  }

  // ------------------------------------------------------------ one span

  /** The column loop of one pair, from column i with running values cur:
      each column is plotted and the running values stepped, whether or
      not the column is inside the image. */
  function FillSpan(m: Libm, light: Lighting.Lights, oneSided: int, ds: DrawState,
                    img: Image, scan: int, sp: Span, i: int, cur: Sample): (img': Image)
    requires img.Valid() && TexOk(ds) && light.Valid()
    ensures img'.Valid() && img'.rows == img.rows && img'.cols == img.cols
    ensures forall r, c :: img.InBounds(r, c) && (r != scan || c < i || c >= sp.end) ==>
              Getf(img', r, c) == Getf(img, r, c)
    decreases sp.end - i
  {
    if i >= sp.end then img
    else FillSpan(m, light, oneSided, ds, Plot(m, light, oneSided, ds, img, scan, i, cur, sp), scan, sp, i + 1, Step(cur, sp.d))
  }

  /** Every column of the span inside the image ends up as one ShadePixel
      of its old value, with the running values c - i columns on. */
  lemma {:induction false} FillSpanColumn(m: Libm, light: Lighting.Lights, oneSided: int, ds: DrawState,
                                          img: Image, scan: int, sp: Span, i: int, cur: Sample, c: int)
    requires img.Valid() && TexOk(ds) && light.Valid()
    requires img.InBounds(scan, c) && i <= c < sp.end
    ensures var a := Steps(cur, sp.d, c - i);
            Getf(FillSpan(m, light, oneSided, ds, img, scan, sp, i, cur), scan, c)
            == ShadePixel(Getf(img, scan, c), a.z, ds.zBufferFlag == 1, Written(m, light, oneSided, ds, a, sp))
    decreases sp.end - i
  {
    var img1 := Plot(m, light, oneSided, ds, img, scan, i, cur, sp);
    if c > i {
      FillSpanColumn(m, light, oneSided, ds, img1, scan, sp, i + 1, Step(cur, sp.d), c);
    }
  }

  /** fillScan's depth discipline on one span: alpha never changes; with
      the z-buffer on no depth decreases, and a pixel either keeps its
      value or takes a strictly greater depth; with it off no depth
      changes. */
  lemma {:induction false} FillSpanDepth(m: Libm, light: Lighting.Lights, oneSided: int, ds: DrawState,
                                         img: Image, scan: int, sp: Span, i: int, cur: Sample, r: int, c: int)
    requires img.Valid() && TexOk(ds) && light.Valid() && img.InBounds(r, c)
    ensures var p, p' := Getf(img, r, c), Getf(FillSpan(m, light, oneSided, ds, img, scan, sp, i, cur), r, c);
            && p'.a == p.a
            && (ds.zBufferFlag == 1 ==> p'.z >= p.z && (p' == p || p'.z > p.z))
            && (ds.zBufferFlag != 1 ==> p'.z == p.z)
  {
    if r == scan && i <= c < sp.end {
      FillSpanColumn(m, light, oneSided, ds, img, scan, sp, i, cur, c);
      var a := Steps(cur, sp.d, c - i);
      ShadePixelDepth(Getf(img, scan, c), a.z, ds.zBufferFlag == 1, Written(m, light, oneSided, ds, a, sp));
    }
  }

  /** With ShadeConstant and the z-buffer off, a span paints every one of
      its columns inside the image in the drawing colour. */
  lemma ConstantSpanPaints(m: Libm, light: Lighting.Lights, oneSided: int, ds: DrawState,
                           img: Image, scan: int, p1: Edge, p2: Edge, c: int)
    requires img.Valid() && TexOk(ds) && light.Valid()
    requires ds.shade == ShadeConstant && ds.zBufferFlag != 1
    requires img.InBounds(scan, c) && Trunc(p1.x) <= c < Trunc(p2.x)
    ensures var sp := MakeSpan(p1, p2);
            GetColor(FillSpan(m, light, oneSided, ds, img, scan, sp, sp.start, sp.first), scan, c) == ds.color
  {
    var sp := MakeSpan(p1, p2);
    FillSpanColumn(m, light, oneSided, ds, img, scan, sp, sp.start, sp.first, c);
  }

  // ------------------------------------------------------------ one row

  /** Column c of the row lies in the span of some pair of the active
      list, pairs taken from the front. */
  predicate InSpans(active: seq<Edge>, c: int)
    decreases |active|
  {
    |active| >= 2 && ((Trunc(active[0].x) <= c < Trunc(active[1].x)) || InSpans(active[2..], c))
  }

  /** fillScan: the spans of the pairs (first, second), (third, fourth),
      ... are filled in turn; an unpaired last edge is ignored. */
  function FillScan(m: Libm, light: Lighting.Lights, oneSided: int, ds: DrawState,
                    img: Image, scan: int, active: seq<Edge>): (img': Image)
    requires img.Valid() && TexOk(ds) && light.Valid()
    ensures img'.Valid() && img'.rows == img.rows && img'.cols == img.cols
    ensures forall r, c :: img.InBounds(r, c) && (r != scan || !InSpans(active, c)) ==>
              Getf(img', r, c) == Getf(img, r, c)
    decreases |active|
  {
    if |active| < 2 then img
    else
      var sp := MakeSpan(active[0], active[1]);
      FillScan(m, light, oneSided, ds, FillSpan(m, light, oneSided, ds, img, scan, sp, sp.start, sp.first),
               scan, active[2..])
  }

  /** The depth discipline of fillScan over a whole row. */
  lemma {:induction false} FillScanDepth(m: Libm, light: Lighting.Lights, oneSided: int, ds: DrawState,
                                         img: Image, scan: int, active: seq<Edge>, r: int, c: int)
    requires img.Valid() && TexOk(ds) && light.Valid() && img.InBounds(r, c)
    ensures var p, p' := Getf(img, r, c), Getf(FillScan(m, light, oneSided, ds, img, scan, active), r, c);
            && p'.a == p.a
            && (ds.zBufferFlag == 1 ==> p'.z >= p.z && (p' == p || p'.z > p.z))
            && (ds.zBufferFlag != 1 ==> p'.z == p.z)
    decreases |active|
  {
    if |active| >= 2 {
      var sp := MakeSpan(active[0], active[1]);
      var img1 := FillSpan(m, light, oneSided, ds, img, scan, sp, sp.start, sp.first);
      FillSpanDepth(m, light, oneSided, ds, img, scan, sp, sp.start, sp.first, r, c);
      FillScanDepth(m, light, oneSided, ds, img1, scan, active[2..], r, c);
    }
  }

  // ------------------------------------------------------------ the polygon

  /** The depth discipline as a relation between two images of the same
      size. */
  ghost predicate DepthKept(img: Image, img': Image, zbuf: bool)
    requires img.Valid() && img'.Valid() && img'.rows == img.rows && img'.cols == img.cols
  {
    forall r, c :: img.InBounds(r, c) ==>
      && Getf(img', r, c).a == Getf(img, r, c).a
      && (zbuf ==> Getf(img', r, c).z >= Getf(img, r, c).z)
      && (!zbuf ==> Getf(img', r, c).z == Getf(img, r, c).z)
  }

  /** Every edge filed in the bucket of a row stays active at least
      through that row. */
  lemma {:induction false} RowEdgesLive(p: Polygons.Polygon, rows: int, k: int, row: int)
    requires Fillable(p) && 0 <= k <= |p.vertex|
    ensures forall e :: e in RowEdges(p, rows, k, row) ==> row <= e.yUpper
  {
    if k > 0 {
      RowEdgesLive(p, rows, k - 1, row);
      var r := PairRec(p, k - 1, rows);
      var tail := if r.Some? && r.value.0 == row then [r.value.1] else [];
      assert RowEdges(p, rows, k, row) == RowEdges(p, rows, k - 1, row) + tail;
    }
  }

  /** The edges in the bucket of a row are active at least through it. */
  lemma BucketLive(p: Polygons.Polygon, rows: int, row: int)
    requires Fillable(p) && 0 <= row < rows
    ensures forall e :: e in Table(p, rows, |p.vertex|)[row] ==> row <= e.yUpper
  {
    TableBuckets(p, rows, |p.vertex|);
    RowEdgesLive(p, rows, |p.vertex|, row);
    var b := Table(p, rows, |p.vertex|)[row];
    assert forall e :: e in b ==> e in multiset(RowEdges(p, rows, |p.vertex|, row));
  }

  /** One scanline of Polygon_drawFill: the row's bucket joins the active
      list; if the list is not empty the row is filled, finished edges are
      dropped, the rest advanced and the list re-sorted. */
  method Scanline(m: Libm, light: Lighting.Lights, oneSided: int, ds: DrawState,
                  img: Image, scan: int, active: seq<Edge>, bucket: seq<Edge>)
    returns (img': Image, active': seq<Edge>)
    requires img.Valid() && TexOk(ds) && light.Valid()
    requires Sorted(active) && forall e :: e in active + bucket ==> scan <= e.yUpper
    ensures img'.Valid() && img'.rows == img.rows && img'.cols == img.cols
    ensures forall r, c :: img.InBounds(r, c) && r != scan ==> Getf(img', r, c) == Getf(img, r, c)
    ensures DepthKept(img, img', ds.zBufferFlag == 1)
    ensures Sorted(active') && forall e :: e in active' ==> scan < e.yUpper
  {
    var a := BuildActive(active, bucket);
    assert forall e :: e in a ==> e in multiset(active + bucket);
    img', active' := img, a;
    if a != [] {
      img' := FillScan(m, light, oneSided, ds, img, scan, a);
      forall r, c | img.InBounds(r, c)
        ensures && Getf(img', r, c).a == Getf(img, r, c).a
                && (ds.zBufferFlag == 1 ==> Getf(img', r, c).z >= Getf(img, r, c).z)
                && (ds.zBufferFlag != 1 ==> Getf(img', r, c).z == Getf(img, r, c).z)
      {
        FillScanDepth(m, light, oneSided, ds, img, scan, a, r, c);
      }
      var u := Update(scan, a);
      active' := Resort(u);
      assert forall e :: e in active' ==> e in multiset(u);
    }
  }

  /** Polygon_drawFill over the rows of ScanRangeAsWritten, the bounds
      buildEdgeList computes: rows outside the range are untouched, and
      the fill keeps the depth discipline.  Every edge taken from a bucket is active at least
      through its last row, and the active list is sorted whenever a row
      is filled. */
  method DrawFill(m: Libm, img: Image, p: Polygons.Polygon, ds: DrawState, light: Lighting.Lights)
    returns (img': Image)
    requires img.Valid() && Fillable(p) && TexOk(ds) && light.Valid()
    ensures img'.Valid() && img'.rows == img.rows && img'.cols == img.cols
    ensures forall r, c :: img.InBounds(r, c) && !(ScanRangeAsWritten(p, img.rows).0 <= r < ScanRangeAsWritten(p, img.rows).1) ==>
              Getf(img', r, c) == Getf(img, r, c)
    ensures DepthKept(img, img', ds.zBufferFlag == 1)
  {
    var rows := img.rows;
    var table := Table(p, rows, |p.vertex|);
    var lo, hi := ScanRangeAsWritten(p, rows).0, ScanRangeAsWritten(p, rows).1;
    var active: seq<Edge> := [];
    img' := img;
    var scan := lo;
    while scan < hi
      invariant lo <= scan <= if lo <= hi then hi else lo
      invariant img'.Valid() && img'.rows == img.rows && img'.cols == img.cols
      invariant forall r, c :: img.InBounds(r, c) && !(lo <= r < scan) ==> Getf(img', r, c) == Getf(img, r, c)
      invariant DepthKept(img, img', ds.zBufferFlag == 1)
      invariant Sorted(active) && forall e :: e in active ==> scan <= e.yUpper
    {
      var bucket := table[scan];
      BucketLive(p, rows, scan);
      img', active := Scanline(m, light, p.oneSided, ds, img', scan, active, bucket);
      scan := scan + 1;
    }
    forall r, c | img.InBounds(r, c) && !(lo <= r < hi)
      ensures Getf(img', r, c) == Getf(img, r, c)
    {
      assert !(lo <= r < scan);
    }
  }

  /** Polygon_drawShade: ShadeFrame draws the outline; every other method
      fills.  The outline needs at least one vertex and no z-buffering of
      its lines (whose endpoints would have depth 0); the fill needs a
      fillable polygon. */
  method DrawShade(m: Libm, img: Image, p: Polygons.Polygon, ds: DrawState, light: Lighting.Lights)
    returns (img': Image)
    requires img.Valid() && TexOk(ds) && light.Valid()
    requires ds.shade == ShadeFrame ==> |p.vertex| >= 1 && p.zBuffer != 1
    requires ds.shade != ShadeFrame ==> Fillable(p)
    ensures img'.Valid() && img'.rows == img.rows && img'.cols == img.cols
    ensures ds.shade == ShadeFrame ==>
              forall r, c :: img.InBounds(r, c) ==> GetZ(img', r, c) == GetZ(img, r, c)
    ensures ds.shade != ShadeFrame ==>
              && DepthKept(img, img', ds.zBufferFlag == 1)
              && forall r, c :: img.InBounds(r, c) && !(ScanRangeAsWritten(p, img.rows).0 <= r < ScanRangeAsWritten(p, img.rows).1) ==>
                   Getf(img', r, c) == Getf(img, r, c)
  {
    if ds.shade == ShadeFrame {
      img' := Polygons.DrawFrame(img, p, ds.color);
    } else {
      img' := DrawFill(m, img, p, ds, light);
    }
  }
}

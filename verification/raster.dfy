/** Sequences of pixel writes, as the rasterisers issue them through
    Image_setColor, Image_getz and Image_setz (lib/image.c). */
module Raster {
  import opened Colors
  import opened Images

  /** One write aimed at column x, row y, with a depth and a colour. */
  datatype Frag = Frag(x: int, y: int, z: real, color: Color)
  {
    predicate At(r: int, c: int)
    {
      y == r && x == c
    }
  }

  /** Some fragment is aimed at row r, column c. */
  predicate Hits(fs: seq<Frag>, r: int, c: int)
  {
    exists i :: 0 <= i < |fs| && fs[i].At(r, c)
  }

  /** Image_setColor applied to each fragment in order; depths are not
      consulted. */
  function Paint(img: Image, fs: seq<Frag>): (img': Image)
    requires img.Valid()
    ensures img'.Valid() && img'.rows == img.rows && img'.cols == img.cols
    decreases |fs|
  {
    if fs == [] then img
    else Paint(SetColor(img, fs[0].y, fs[0].x, fs[0].color), fs[1..])
  }

  /** The last fragment aimed at a pixel decides its colour; a pixel no
      fragment aims at keeps its colour; alpha and depth never change. */
  lemma {:induction false} PaintLastWins(img: Image, fs: seq<Frag>, r: int, c: int)
    requires img.Valid() && img.InBounds(r, c)
    ensures Getf(Paint(img, fs), r, c).a == Getf(img, r, c).a
    ensures Getf(Paint(img, fs), r, c).z == Getf(img, r, c).z
    ensures (forall i :: 0 <= i < |fs| ==> !fs[i].At(r, c)) ==>
              Getf(Paint(img, fs), r, c) == Getf(img, r, c)
    ensures forall i :: (0 <= i < |fs| && fs[i].At(r, c)
                         && forall j :: i < j < |fs| ==> !fs[j].At(r, c)) ==>
              Getf(Paint(img, fs), r, c).rgb == fs[i].color
    decreases |fs|
  {
    if fs != [] {
      var img1, tail := SetColor(img, fs[0].y, fs[0].x, fs[0].color), fs[1..];
      SetColorAt(img, fs[0], r, c);
      PaintLastWins(img1, tail, r, c);
      assert Paint(img, fs) == Paint(img1, tail);
      assert forall j :: 0 <= j < |tail| ==> tail[j] == fs[j + 1];
      forall i | 0 <= i < |fs| && fs[i].At(r, c) && (forall j :: i < j < |fs| ==> !fs[j].At(r, c))
        ensures Getf(Paint(img, fs), r, c).rgb == fs[i].color
      {
        if i > 0 {
          assert tail[i - 1] == fs[i];
        }
      }
    }
  }

  /** The pixel at (r, c) after painting one fragment. */
  lemma SetColorAt(img: Image, f: Frag, r: int, c: int)
    requires img.Valid() && img.InBounds(r, c)
    ensures Getf(SetColor(img, f.y, f.x, f.color), r, c)
            == if f.At(r, c) then Getf(img, r, c).(rgb := f.color) else Getf(img, r, c)
  {
  }

  /** Paint with one colour: the pixels aimed at get it, the rest keep
      theirs. */
  lemma PaintUniform(img: Image, fs: seq<Frag>, col: Color, r: int, c: int)
    requires img.Valid() && img.InBounds(r, c)
    requires forall i :: 0 <= i < |fs| ==> fs[i].color == col
    ensures GetColor(Paint(img, fs), r, c)
            == if Hits(fs, r, c) then col else GetColor(img, r, c)
    ensures GetZ(Paint(img, fs), r, c) == GetZ(img, r, c)
  {
    PaintLastWins(img, fs, r, c);
    if Hits(fs, r, c) {
      var i :| 0 <= i < |fs| && fs[i].At(r, c);
      var last := LastAt(fs, i, r, c);
      assert Getf(Paint(img, fs), r, c).rgb == fs[last].color;
    }
  }

  /** A pixel is aimed at by a concatenation iff by one of its parts. */
  lemma HitsAppend(a: seq<Frag>, b: seq<Frag>, r: int, c: int)
    ensures Hits(a + b, r, c) <==> Hits(a, r, c) || Hits(b, r, c)
  {
    if Hits(a + b, r, c) {
      var i :| 0 <= i < |a + b| && (a + b)[i].At(r, c);
      if i >= |a| {
        assert b[i - |a|].At(r, c);
      }
    }
    if Hits(b, r, c) {
      var i :| 0 <= i < |b| && b[i].At(r, c);
      assert (a + b)[|a| + i].At(r, c);
    }
    if Hits(a, r, c) {
      var i :| 0 <= i < |a| && a[i].At(r, c);
      assert (a + b)[i].At(r, c);
    }
  }

  /** The writes of a loop that issues f(t) for each loop state t, in
      order: a pixel is aimed at iff some state's writes aim at it, and
      every write comes from some state. */
  function Spread<T>(trace: seq<T>, f: T -> seq<Frag>): (fs: seq<Frag>)
    ensures forall r, c :: Hits(fs, r, c) <==> exists i :: 0 <= i < |trace| && Hits(f(trace[i]), r, c)
    ensures forall k :: 0 <= k < |fs| ==> exists i :: 0 <= i < |trace| && fs[k] in f(trace[i])
    decreases |trace|
  {
    if |trace| == 0 then []
    else
      var front := trace[..|trace| - 1];
      var last := f(trace[|trace| - 1]);
      var fs := Spread(front, f) + last;
      forall r, c
        ensures Hits(fs, r, c) <==> exists i :: 0 <= i < |trace| && Hits(f(trace[i]), r, c)
      {
        HitsAppend(Spread(front, f), last, r, c);
        if Hits(fs, r, c) && !Hits(last, r, c) {
          var i :| 0 <= i < |front| && Hits(f(front[i]), r, c);
          assert trace[i] == front[i];
        }
        if exists i :: 0 <= i < |trace| && Hits(f(trace[i]), r, c) {
          var i :| 0 <= i < |trace| && Hits(f(trace[i]), r, c);
          if i < |front| {
            assert front[i] == trace[i];
          }
        }
      }
      forall k | 0 <= k < |fs|
        ensures exists i :: 0 <= i < |trace| && fs[k] in f(trace[i])
      {
        if k < |Spread(front, f)| {
          var i :| 0 <= i < |front| && fs[k] in f(front[i]);
          assert trace[i] == front[i];
        } else {
          assert fs[k] == last[k - |Spread(front, f)|];
          assert fs[k] in f(trace[|trace| - 1]);
        }
      }
      fs
  }

  /** Painting the writes of every loop state with one colour: exactly the
      pixels some state aims at get it; depths never change. */
  lemma PaintSpread<T>(img: Image, trace: seq<T>, f: T -> seq<Frag>, col: Color, r: int, c: int)
    requires img.Valid() && img.InBounds(r, c)
    requires forall t, k :: t in trace && 0 <= k < |f(t)| ==> f(t)[k].color == col
    ensures GetColor(Paint(img, Spread(trace, f)), r, c)
            == if exists i :: 0 <= i < |trace| && Hits(f(trace[i]), r, c) then col else GetColor(img, r, c)
    ensures GetZ(Paint(img, Spread(trace, f)), r, c) == GetZ(img, r, c)
  {
    var fs := Spread(trace, f);
    forall k | 0 <= k < |fs|
      ensures fs[k].color == col
    {
      var i :| 0 <= i < |trace| && fs[k] in f(trace[i]);
      var j :| 0 <= j < |f(trace[i])| && f(trace[i])[j] == fs[k];
    }
    PaintUniform(img, fs, col, r, c);
  }

  /** The writes of the fill loops of Circle_fillPoints and
      Ellipse_fillPoints: for each column from lo up to but excluding hi,
      one pixel on row r1 and then one on row r2. */
  function RowPair(r1: int, r2: int, lo: int, hi: int, col: Color): (fs: seq<Frag>)
    ensures forall i :: 0 <= i < |fs| ==> fs[i].color == col
    ensures forall r, c :: Hits(fs, r, c) <==> (r == r1 || r == r2) && lo <= c < hi
  {
    var n := if hi > lo then hi - lo else 0;
    var fs := seq(2 * n, k requires 0 <= k < 2 * n => Frag(lo + k / 2, if k % 2 == 0 then r1 else r2, 0.0, col));
    assert forall r, c :: (r == r1 || r == r2) && lo <= c < hi ==> Hits(fs, r, c) by {
      forall r, c | (r == r1 || r == r2) && lo <= c < hi
        ensures Hits(fs, r, c)
      {
        var k := 2 * (c - lo) + (if r == r1 then 0 else 1);
        assert fs[k].At(r, c);
      }
    }
    fs
  }

  /** The index of the last fragment at (r, c), given one at index i. */
  function LastAt(fs: seq<Frag>, i: int, r: int, c: int): (k: int)
    requires 0 <= i < |fs| && fs[i].At(r, c)
    ensures i <= k < |fs| && fs[k].At(r, c)
    ensures forall j :: k < j < |fs| ==> !fs[j].At(r, c)
    decreases |fs| - i
  {
    if exists j :: i < j < |fs| && fs[j].At(r, c) then
      var j :| i < j < |fs| && fs[j].At(r, c);
      LastAt(fs, j, r, c)
    else i
  }

  /** The depth-tested write of the rasterisers: a fragment is drawn, and
      its depth stored, only when its depth is strictly greater than the
      depth Image_getz reports at that moment. */
  function DepthTest(img: Image, fs: seq<Frag>): (img': Image)
    requires img.Valid()
    ensures img'.Valid() && img'.rows == img.rows && img'.cols == img.cols
    decreases |fs|
  {
    if fs == [] then img
    else DepthTest(DepthStep(img, fs[0]), fs[1..])
  }

  /** One depth-tested write. */
  function DepthStep(img: Image, f: Frag): (img': Image)
    requires img.Valid()
    ensures img'.Valid() && img'.rows == img.rows && img'.cols == img.cols
  {
    if f.z > GetZ(img, f.y, f.x)
    then SetColor(SetZ(img, f.y, f.x, f.z), f.y, f.x, f.color)
    else img
  }

  /** The pixel at (r, c) after one depth-tested write. */
  lemma DepthStepAt(img: Image, f: Frag, r: int, c: int)
    requires img.Valid() && img.InBounds(r, c)
    ensures Getf(DepthStep(img, f), r, c)
            == if f.At(r, c) && f.z > Getf(img, r, c).z
               then Getf(img, r, c).(z := f.z, rgb := f.color) else Getf(img, r, c)
  {
  }

  /** After the depth test each pixel holds the greatest of its old depth
      and the depths of the fragments aimed at it.  If that is its old
      depth the pixel is untouched; otherwise its colour is that of the
      first fragment reaching the greatest depth.  Alpha never changes. */
  lemma {:induction false} DepthTestKeepsNearest(img: Image, fs: seq<Frag>, r: int, c: int)
    requires img.Valid() && img.InBounds(r, c)
    ensures var p, p' := Getf(img, r, c), Getf(DepthTest(img, fs), r, c);
            && p'.a == p.a
            && p'.z >= p.z
            && (forall i :: 0 <= i < |fs| && fs[i].At(r, c) ==> fs[i].z <= p'.z)
            && (p'.z == p.z ==> p' == p)
            && (p'.z > p.z ==>
                  exists i :: 0 <= i < |fs| && fs[i].At(r, c) && fs[i].z == p'.z
                              && p'.rgb == fs[i].color
                              && forall j :: 0 <= j < i && fs[j].At(r, c) ==> fs[j].z < p'.z)
    decreases |fs|
  {
    if fs != [] {
      var img1, tail := DepthStep(img, fs[0]), fs[1..];
      DepthStepAt(img, fs[0], r, c);
      DepthTestKeepsNearest(img1, tail, r, c);
      assert DepthTest(img, fs) == DepthTest(img1, tail);
      var p, p1, p' := Getf(img, r, c), Getf(img1, r, c), Getf(DepthTest(img, fs), r, c);
      assert forall j :: 0 <= j < |tail| ==> tail[j] == fs[j + 1];
      if p'.z > p.z {
        if p'.z > p1.z {
          var i :| 0 <= i < |tail| && tail[i].At(r, c) && tail[i].z == p'.z
                   && p'.rgb == tail[i].color
                   && forall j :: 0 <= j < i && tail[j].At(r, c) ==> tail[j].z < p'.z;
          assert fs[i + 1].At(r, c) && fs[i + 1].z == p'.z;
        } else {
          assert fs[0].At(r, c) && fs[0].z == p'.z;
        }
      }
    }
  }
}

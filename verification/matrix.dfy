/** 4×4 transformation matrices (lib/matrix.c, include/cb_matrix.h).

    A matrix is its 16 doubles in row-major order: entry (r, c) is
    m[r*4 + c].  Every builder premultiplies, m := B × m, so the newest
    transform is applied last to a point.  All operations are pure
    functions here, so Matrix_multiply's care for an output that aliases
    an input is automatic. */
module Matrices {
  import opened CNum
  import opened Geometry
  import Lines
  import Polylines
  import Polygons

  /** A matrix as its four rows; entry (r, c) is component c of row r,
      which the C stores at m[r*4 + c] (see `Flat`). */
  datatype Matrix = Matrix(r0: Vec4, r1: Vec4, r2: Vec4, r3: Vec4)

  /** Component j of a 4-vector. */
  function Comp(v: Vec4, j: int): real
    requires 0 <= j < 4
  {
    if j == 0 then v.x else if j == 1 then v.y else if j == 2 then v.z else v.w
  }

  /** v with component j replaced. */
  function WithComp(v: Vec4, j: int, a: real): (u: Vec4)
    requires 0 <= j < 4
    ensures forall k :: 0 <= k < 4 ==> Comp(u, k) == if k == j then a else Comp(v, k)
  {
    if j == 0 then v.(x := a) else if j == 1 then v.(y := a) else if j == 2 then v.(z := a) else v.(w := a)
  }

  /** Row i. */
  function Row(m: Matrix, i: int): Vec4
    requires 0 <= i < 4
  {
    if i == 0 then m.r0 else if i == 1 then m.r1 else if i == 2 then m.r2 else m.r3
  }

  /** Matrix_get: entry (r, c).  The C does not check the indices. */
  function Get(m: Matrix, r: int, c: int): real
    requires 0 <= r < 4 && 0 <= c < 4
  {
    Comp(Row(m, r), c)
  }

  /** The sixteen doubles of the C struct, row-major. */
  function Flat(m: Matrix): (s: seq<real>)
    ensures |s| == 16
    ensures forall r, c :: 0 <= r < 4 && 0 <= c < 4 ==> s[r * 4 + c] == Get(m, r, c)
  {
    [m.r0.x, m.r0.y, m.r0.z, m.r0.w, m.r1.x, m.r1.y, m.r1.z, m.r1.w,
     m.r2.x, m.r2.y, m.r2.z, m.r2.w, m.r3.x, m.r3.y, m.r3.z, m.r3.w]
  }

  /** Matrix_set: writes entry (r, c) and nothing else. */
  function Set(m: Matrix, r: int, c: int, v: real): (m': Matrix)
    requires 0 <= r < 4 && 0 <= c < 4
    ensures forall i, j :: 0 <= i < 4 && 0 <= j < 4 ==>
              Get(m', i, j) == if i == r && j == c then v else Get(m, i, j)
  {
    var row := WithComp(Row(m, r), c, v);
    if r == 0 then m.(r0 := row) else if r == 1 then m.(r1 := row)
    else if r == 2 then m.(r2 := row) else m.(r3 := row)
  }

  const X := Vec4(1.0, 0.0, 0.0, 0.0)
  const Y := Vec4(0.0, 1.0, 0.0, 0.0)
  const Z := Vec4(0.0, 0.0, 1.0, 0.0)
  const W := Vec4(0.0, 0.0, 0.0, 1.0)
  const Zero := Vec4(0.0, 0.0, 0.0, 0.0)

  /** Matrix_clear: all sixteen entries 0. */
  function Clear(): (m: Matrix)
    ensures forall i, j :: 0 <= i < 4 && 0 <= j < 4 ==> Get(m, i, j) == 0.0
  {
    Matrix(Zero, Zero, Zero, Zero)
  }

  /** Matrix_identity: 1 on the diagonal, 0 elsewhere. */
  function Identity(): (m: Matrix)
    ensures forall i, j :: 0 <= i < 4 && 0 <= j < 4 ==> Get(m, i, j) == if i == j then 1.0 else 0.0
  {
    Matrix(X, Y, Z, W)
  }

  /** Matrix_transpose: swaps the six off-diagonal pairs (1,4), (2,8),
      (3,12), (6,9), (7,13), (11,14); the result is the transpose. */
  function Transpose(m: Matrix): (t: Matrix)
    ensures forall i, j :: 0 <= i < 4 && 0 <= j < 4 ==> Get(t, i, j) == Get(m, j, i)
  {
    Matrix(Vec4(m.r0.x, m.r1.x, m.r2.x, m.r3.x),
           Vec4(m.r0.y, m.r1.y, m.r2.y, m.r3.y),
           Vec4(m.r0.z, m.r1.z, m.r2.z, m.r3.z),
           Vec4(m.r0.w, m.r1.w, m.r2.w, m.r3.w))
  }

  /** Transposing twice gives the matrix back; the diagonal never moves. */
  lemma TransposeInvolution(m: Matrix)
    ensures Transpose(Transpose(m)) == m
    ensures forall i :: 0 <= i < 4 ==> Get(Transpose(m), i, i) == Get(m, i, i)
  {
  }

  /** a·u + b·v, all four components. */
  function Mix(a: real, u: Vec4, b: real, v: Vec4): Vec4
  {
    Vec4(a * u.x + b * v.x, a * u.y + b * v.y, a * u.z + b * v.z, a * u.w + b * v.w)
  }

  /** The row c × m: the rows of m weighted by the components of c. */
  function Combine(c: Vec4, m: Matrix): Vec4
  {
    Mix(1.0, Mix(c.x, m.r0, c.y, m.r1), 1.0, Mix(c.z, m.r2, c.w, m.r3))
  }

  /** Row i of l times column j of r. */
  function RowCol(l: Matrix, r: Matrix, i: int, j: int): real
    requires 0 <= i < 4 && 0 <= j < 4
  {
    Get(l, i, 0) * Get(r, 0, j) + Get(l, i, 1) * Get(r, 1, j)
    + Get(l, i, 2) * Get(r, 2, j) + Get(l, i, 3) * Get(r, 3, j)
  }

  /** Matrix_multiply: the row-major product left × right.  Row i of the
      product combines the rows of right with the weights in row i of
      left. */
  function Multiply(left: Matrix, right: Matrix): Matrix
  {
    Matrix(Combine(left.r0, right), Combine(left.r1, right), Combine(left.r2, right), Combine(left.r3, right))
  }

  /** Component j of c × m. */
  lemma CombineComp(c: Vec4, m: Matrix, j: int)
    requires 0 <= j < 4
    ensures Comp(Combine(c, m), j)
            == c.x * Comp(m.r0, j) + c.y * Comp(m.r1, j) + c.z * Comp(m.r2, j) + c.w * Comp(m.r3, j)
  {
    CombineXYZW(c, m);
    if j == 0 {
    } else if j == 1 {
    } else if j == 2 {
    } else {
    }
  }

  /** The four components of c × m. */
  lemma CombineXYZW(c: Vec4, m: Matrix)
    ensures Combine(c, m).x == c.x * m.r0.x + c.y * m.r1.x + c.z * m.r2.x + c.w * m.r3.x
    ensures Combine(c, m).y == c.x * m.r0.y + c.y * m.r1.y + c.z * m.r2.y + c.w * m.r3.y
    ensures Combine(c, m).z == c.x * m.r0.z + c.y * m.r1.z + c.z * m.r2.z + c.w * m.r3.z
    ensures Combine(c, m).w == c.x * m.r0.w + c.y * m.r1.w + c.z * m.r2.w + c.w * m.r3.w
  {
  }

  /** Entry (i, j) of the product is row i of left times column j of
      right, as Matrix_multiply spells out entry by entry. */
  lemma MultiplyEntry(left: Matrix, right: Matrix, i: int, j: int)
    requires 0 <= i < 4 && 0 <= j < 4
    ensures Get(Multiply(left, right), i, j) == RowCol(left, right, i, j)
  {
    var w := Row(left, i);
    calc {
      Get(Multiply(left, right), i, j);
      == { if i == 0 {} else if i == 1 {} else if i == 2 {} else {} }
      Comp(Combine(w, right), j);
      == { CombineComp(w, right, j); }
      w.x * Comp(right.r0, j) + w.y * Comp(right.r1, j) + w.z * Comp(right.r2, j) + w.w * Comp(right.r3, j);
      == { assert Get(left, i, 0) == w.x && Get(left, i, 1) == w.y && Get(left, i, 2) == w.z && Get(left, i, 3) == w.w; }
      Get(left, i, 0) * Comp(right.r0, j) + Get(left, i, 1) * Comp(right.r1, j)
      + Get(left, i, 2) * Comp(right.r2, j) + Get(left, i, 3) * Comp(right.r3, j);
      == { assert Get(right, 0, j) == Comp(right.r0, j) && Get(right, 1, j) == Comp(right.r1, j)
                  && Get(right, 2, j) == Comp(right.r2, j) && Get(right, 3, j) == Comp(right.r3, j); }
      RowCol(left, right, i, j);
    }
  }

  /** Identity is a left and a right unit of the product. */
  lemma IdentityUnit(m: Matrix)
    ensures Multiply(Identity(), m) == m
    ensures Multiply(m, Identity()) == m
  {
  }

  /** u · p over all four components. */
  function Dot4(u: Vec4, p: Vec4): real
  {
    u.x * p.x + u.y * p.y + u.z * p.z + u.w * p.w
  }

  /** Matrix_xformPoint and Matrix_xformVector (the same arithmetic): the
      product m × p, all four components. */
  function Xform(m: Matrix, p: Vec4): Vec4
  {
    Vec4(Dot4(m.r0, p), Dot4(m.r1, p), Dot4(m.r2, p), Dot4(m.r3, p))
  }

  /** Component i of m × p is row i of m times p. */
  lemma XformComp(m: Matrix, p: Vec4, i: int)
    requires 0 <= i < 4
    ensures Comp(Xform(m, p), i) == Get(m, i, 0) * p.x + Get(m, i, 1) * p.y + Get(m, i, 2) * p.z + Get(m, i, 3) * p.w
  {
  }

  /** The identity transform leaves every point and vector unchanged. */
  lemma XformIdentity(p: Vec4)
    ensures Xform(Identity(), p) == p
  {
  }

  /** Transforming by a product is transforming by the right factor, then
      by the left one; this is what makes premultiplying builders compose. */
  lemma XformMultiply(a: Matrix, b: Matrix, p: Vec4)
    ensures Xform(Multiply(a, b), p) == Xform(a, Xform(b, p))
  {
    XformRow(a.r0, b, p);
    XformRow(a.r1, b, p);
    XformRow(a.r2, b, p);
    XformRow(a.r3, b, p);
  }

  /** One component of XformMultiply. */
  lemma XformRow(w: Vec4, b: Matrix, p: Vec4)
    ensures Dot4(Combine(w, b), p) == Dot4(w, Xform(b, p))
  {
    var lo, hi := Mix(w.x, b.r0, w.y, b.r1), Mix(w.z, b.r2, w.w, b.r3);
    Dot4Mix(w.x, b.r0, w.y, b.r1, p);
    Dot4Mix(w.z, b.r2, w.w, b.r3, p);
    Dot4Mix(1.0, lo, 1.0, hi, p);
  }

  /** The dot product is linear in its first argument. */
  lemma Dot4Mix(a: real, u: Vec4, b: real, v: Vec4, p: Vec4)
    ensures Dot4(Mix(a, u, b, v), p) == a * Dot4(u, p) + b * Dot4(v, p)
  {
    assert (a * u.x + b * v.x) * p.x == a * (u.x * p.x) + b * (v.x * p.x);
    assert (a * u.y + b * v.y) * p.y == a * (u.y * p.y) + b * (v.y * p.y);
    assert (a * u.z + b * v.z) * p.z == a * (u.z * p.z) + b * (v.z * p.z);
    assert (a * u.w + b * v.w) * p.w == a * (u.w * p.w) + b * (v.w * p.w);
  }

  /** k·u, all four components. */
  function Times(k: real, u: Vec4): Vec4
  {
    Vec4(k * u.x, k * u.y, k * u.z, k * u.w)
  }

  /** u + k·v, all four components. */
  function PlusTimes(u: Vec4, k: real, v: Vec4): Vec4
  {
    Vec4(u.x + k * v.x, u.y + k * v.y, u.z + k * v.z, u.w + k * v.w)
  }

  // ------------------------------------------------------------ builders
  //
  // Each builder premultiplies, m := B × m.  Its contract says what that
  // does to the rows of m; the lemma after it says that B moves a point as
  // the builder's step does (`Move`, below).

  /** The matrix Matrix_scale2D premultiplies. */
  function Scale2DMatrix(sx: real, sy: real): Matrix
  {
    Matrix(Vec4(sx, 0.0, 0.0, 0.0), Vec4(0.0, sy, 0.0, 0.0), Z, W)
  }

  /** Matrix_scale2D: scales rows 0 and 1. */
  function Scale2D(m: Matrix, sx: real, sy: real): Matrix
  {
    Multiply(Scale2DMatrix(sx, sy), m)
  }

  /** The 2D scale multiplies x by sx and y by sy. */
  lemma Scale2DActs(sx: real, sy: real, q: Vec4)
    ensures Xform(StepMatrix(Scale2DBy(sx, sy)), q) == Move(q, Scale2DBy(sx, sy))
  {
  }

  /** The matrix Matrix_rotateZ premultiplies, from cos θ and sin θ. */
  function RotateZMatrix(cth: real, sth: real): Matrix
  {
    Matrix(Vec4(cth, -sth, 0.0, 0.0), Vec4(sth, cth, 0.0, 0.0), Z, W)
  }

  /** Matrix_rotateZ: rows 0 and 1 rotate. */
  function RotateZ(m: Matrix, cth: real, sth: real): Matrix
  {
    Multiply(RotateZMatrix(cth, sth), m)
  }

  /** The z rotation turns (x, y) by θ and keeps z and w. */
  lemma RotateZActs(cth: real, sth: real, q: Vec4)
    ensures Xform(StepMatrix(RotateZBy(cth, sth)), q) == Move(q, RotateZBy(cth, sth))
  {
  }

  /** The matrix Matrix_translate2D premultiplies. */
  function Translate2DMatrix(tx: real, ty: real): Matrix
  {
    Matrix(Vec4(1.0, 0.0, 0.0, tx), Vec4(0.0, 1.0, 0.0, ty), Z, W)
  }

  /** Matrix_translate2D: adds tx and ty times the homogeneous row to rows
      0 and 1. */
  function Translate2D(m: Matrix, tx: real, ty: real): Matrix
  {
    Multiply(Translate2DMatrix(tx, ty), m)
  }

  /** The 2D translation moves a point by (tx, ty) times its w, so a point
      with w = 1 moves by (tx, ty). */
  lemma Translate2DActs(tx: real, ty: real, q: Vec4)
    ensures Xform(StepMatrix(Translate2DBy(tx, ty)), q) == Move(q, Translate2DBy(tx, ty))
  {
  }

  /** The matrix Matrix_shear2D premultiplies. */
  function Shear2DMatrix(shx: real, shy: real): Matrix
  {
    Matrix(Vec4(1.0, shx, 0.0, 0.0), Vec4(shy, 1.0, 0.0, 0.0), Z, W)
  }

  /** Matrix_shear2D: x gains shx·y and y gains shy·x. */
  function Shear2D(m: Matrix, shx: real, shy: real): Matrix
  {
    Multiply(Shear2DMatrix(shx, shy), m)
  }

  /** The matrix Matrix_translate premultiplies. */
  function TranslateMatrix(tx: real, ty: real, tz: real): Matrix
  {
    Matrix(Vec4(1.0, 0.0, 0.0, tx), Vec4(0.0, 1.0, 0.0, ty), Vec4(0.0, 0.0, 1.0, tz), W)
  }

  /** Matrix_translate: adds tx, ty, tz times the homogeneous row to rows
      0, 1, 2. */
  function Translate(m: Matrix, tx: real, ty: real, tz: real): Matrix
  {
    Multiply(TranslateMatrix(tx, ty, tz), m)
  }

  /** The translation moves a point by (tx, ty, tz) times its w. */
  lemma TranslateActs(tx: real, ty: real, tz: real, q: Vec4)
    ensures Xform(StepMatrix(TranslateBy(tx, ty, tz)), q) == Move(q, TranslateBy(tx, ty, tz))
  {
  }

  /** The matrix Matrix_scale premultiplies. */
  function ScaleMatrix(sx: real, sy: real, sz: real): Matrix
  {
    Matrix(Vec4(sx, 0.0, 0.0, 0.0), Vec4(0.0, sy, 0.0, 0.0), Vec4(0.0, 0.0, sz, 0.0), W)
  }

  /** Matrix_scale: scales rows 0, 1, 2. */
  function Scale(m: Matrix, sx: real, sy: real, sz: real): Matrix
  {
    Multiply(ScaleMatrix(sx, sy, sz), m)
  }

  /** The scale multiplies x, y, z by sx, sy, sz. */
  lemma ScaleActs(sx: real, sy: real, sz: real, q: Vec4)
    ensures Xform(StepMatrix(ScaleBy(sx, sy, sz)), q) == Move(q, ScaleBy(sx, sy, sz))
  {
  }

  /** Matrix_rotateX: rows 1 and 2 rotate. */
  function RotateX(m: Matrix, cth: real, sth: real): Matrix
  {
    Multiply(RotateXMatrix(cth, sth), m)
  }

  /** The matrix Matrix_rotateX premultiplies. */
  function RotateXMatrix(cth: real, sth: real): Matrix
  {
    Matrix(X, Vec4(0.0, cth, -sth, 0.0), Vec4(0.0, sth, cth, 0.0), W)
  }

  /** Matrix_rotateY: rows 0 and 2 rotate. */
  function RotateY(m: Matrix, cth: real, sth: real): Matrix
  {
    Multiply(RotateYMatrix(cth, sth), m)
  }

  /** The matrix Matrix_rotateY premultiplies. */
  function RotateYMatrix(cth: real, sth: real): Matrix
  {
    Matrix(Vec4(cth, 0.0, sth, 0.0), Y, Vec4(-sth, 0.0, cth, 0.0), W)
  }

  /** The matrix Matrix_rotateXYZ premultiplies: rows u, v, w (x, y, z
      parts only) and the homogeneous row. */
  function RotateXYZMatrix(u: Vector, v: Vector, w: Vector): Matrix
  {
    Matrix(Vec4(u.x, u.y, u.z, 0.0), Vec4(v.x, v.y, v.z, 0.0), Vec4(w.x, w.y, w.z, 0.0), W)
  }

  /** Matrix_rotateXYZ: row i of the result combines rows 0-2 of m with
      the weights of u, v or w. */
  function RotateXYZ(m: Matrix, u: Vector, v: Vector, w: Vector): (r: Matrix)
    ensures r.r0 == PlusTimes(Mix(u.x, m.r0, u.y, m.r1), u.z, m.r2)
    ensures r.r1 == PlusTimes(Mix(v.x, m.r0, v.y, m.r1), v.z, m.r2)
    ensures r.r2 == PlusTimes(Mix(w.x, m.r0, w.y, m.r1), w.z, m.r2)
    ensures r.r3 == m.r3
  {
    Multiply(RotateXYZMatrix(u, v, w), m)
  }

  /** The axis alignment expresses a point in the basis u, v, w: its new
      coordinates are its dot products with them. */
  lemma RotateXYZActs(u: Vector, v: Vector, w: Vector, q: Vec4)
    ensures Xform(StepMatrix(RotateXYZBy(u, v, w)), q) == Move(q, RotateXYZBy(u, v, w))
  {
  }

  /** Matrix_shearZ: x gains shx·z and y gains shy·z. */
  function ShearZ(m: Matrix, shx: real, shy: real): Matrix
  {
    Multiply(ShearZMatrix(shx, shy), m)
  }

  /** The matrix Matrix_shearZ premultiplies. */
  function ShearZMatrix(shx: real, shy: real): Matrix
  {
    Matrix(Vec4(1.0, 0.0, shx, 0.0), Vec4(0.0, 1.0, shy, 0.0), Z, W)
  }

  /** The matrix Matrix_perspective premultiplies, with 1/d written q. */
  function PerspectiveMatrix(q: real): Matrix
  {
    Matrix(X, Y, Z, Vec4(0.0, 0.0, q, 0.0))
  }

  /** Matrix_perspective: the homogeneous row becomes the z row over d. */
  function Perspective(m: Matrix, d: real): Matrix
  {
    PerspectiveRows(Quot(1.0, d), m);
    Multiply(PerspectiveMatrix(Quot(1.0, d)), m)
  }

  /** Premultiplying by the perspective matrix. */
  lemma PerspectiveRows(q: real, m: Matrix)
    ensures Multiply(PerspectiveMatrix(q), m) == Matrix(m.r0, m.r1, m.r2, Times(q, m.r2))
  {
  }

  /** The perspective keeps x, y, z and makes w = z / d. */
  lemma PerspectiveActs(d: real, q: Vec4)
    ensures Xform(StepMatrix(PerspectiveBy(d)), q) == Move(q, PerspectiveBy(d))
  {
  }


  /** A 2D translation applied to identity has tx at entry 3, ty at entry
      7, ones on the diagonal and zeros elsewhere. */
  lemma Translate2DOnIdentity(tx: real, ty: real)
    ensures Translate2D(Identity(), tx, ty) == Translate2DMatrix(tx, ty)
    ensures Flat(Translate2D(Identity(), tx, ty))
            == [1.0, 0.0, 0.0, tx, 0.0, 1.0, 0.0, ty, 0.0, 0.0, 1.0, 0.0, 0.0, 0.0, 0.0, 1.0]
  {
    Translate2DRows(tx, ty, Identity());
  }

  /** Premultiplying by the 2D translation matrix adds tx and ty times
      the homogeneous row to rows 0 and 1. */
  lemma Translate2DRows(tx: real, ty: real, m: Matrix)
    ensures Translate2D(m, tx, ty)
            == Matrix(PlusTimes(m.r0, tx, m.r3), PlusTimes(m.r1, ty, m.r3), m.r2, m.r3)
  {
  }

  /** Applying Translate2D to m and then transforming p equals
      transforming p by m and then moving the result by (tx·w, ty·w). */
  lemma Translate2DAfter(m: Matrix, tx: real, ty: real, p: Vec4)
    ensures var q := Xform(m, p);
            Xform(Translate2D(m, tx, ty), p) == Vec4(q.x + tx * q.w, q.y + ty * q.w, q.z, q.w)
  {
    var q := Xform(m, p);
    calc {
      Xform(Translate2D(m, tx, ty), p);
      { XformMultiply(Translate2DMatrix(tx, ty), m, p); }
      Xform(Translate2DMatrix(tx, ty), q);
      { Translate2DActs(tx, ty, q); }
      Move(q, Translate2DBy(tx, ty));
    }
  }


  // ------------------------------------------------------- builder steps
  //
  // A sequence of builder calls, as data.  Matrix_setView2D/3D and the
  // module's matrix elements are such sequences; `Move` is what one step
  // does to a point, and ApplyAllActs says that transforming by the built
  // matrix is moving the point through the steps in order.

  datatype Step =
    | Scale2DBy(sx: real, sy: real)
    | RotateZBy(cth: real, sth: real)
    | Translate2DBy(tx: real, ty: real)
    | Shear2DBy(shx: real, shy: real)
    | TranslateBy(tx: real, ty: real, tz: real)
    | ScaleBy(sx: real, sy: real, sz: real)
    | RotateXBy(cth: real, sth: real)
    | RotateYBy(cth: real, sth: real)
    | RotateXYZBy(u: Vector, v: Vector, w: Vector)
    | ShearZBy(shx: real, shy: real)
    | PerspectiveBy(d: real)

  /** The matrix a step premultiplies. */
  function StepMatrix(st: Step): Matrix
  {
    match st
    case Scale2DBy(sx, sy) => Scale2DMatrix(sx, sy)
    case RotateZBy(c, s) => RotateZMatrix(c, s)
    case Translate2DBy(tx, ty) => Translate2DMatrix(tx, ty)
    case Shear2DBy(shx, shy) => Shear2DMatrix(shx, shy)
    case TranslateBy(tx, ty, tz) => TranslateMatrix(tx, ty, tz)
    case ScaleBy(sx, sy, sz) => ScaleMatrix(sx, sy, sz)
    case RotateXBy(c, s) => RotateXMatrix(c, s)
    case RotateYBy(c, s) => RotateYMatrix(c, s)
    case RotateXYZBy(u, v, w) => RotateXYZMatrix(u, v, w)
    case ShearZBy(shx, shy) => ShearZMatrix(shx, shy)
    case PerspectiveBy(d) => PerspectiveMatrix(Quot(1.0, d))
  }

  /** The builder call a step stands for. */
  function Apply(m: Matrix, st: Step): (r: Matrix)
    ensures r == Multiply(StepMatrix(st), m)
  {
    match st
    case Scale2DBy(sx, sy) => Scale2D(m, sx, sy)
    case RotateZBy(c, s) => RotateZ(m, c, s)
    case Translate2DBy(tx, ty) => Translate2D(m, tx, ty)
    case Shear2DBy(shx, shy) => Shear2D(m, shx, shy)
    case TranslateBy(tx, ty, tz) => Translate(m, tx, ty, tz)
    case ScaleBy(sx, sy, sz) => Scale(m, sx, sy, sz)
    case RotateXBy(c, s) => RotateX(m, c, s)
    case RotateYBy(c, s) => RotateY(m, c, s)
    case RotateXYZBy(u, v, w) => RotateXYZ(m, u, v, w)
    case ShearZBy(shx, shy) => ShearZ(m, shx, shy)
    case PerspectiveBy(d) => Perspective(m, d)
  }

  /** The builder calls of a sequence, first to last. */
  function ApplyAll(m: Matrix, steps: seq<Step>): Matrix
    decreases |steps|
  {
    if |steps| == 0 then m else ApplyAll(Apply(m, steps[0]), steps[1..])
  }

  /** What one step does to a point, coordinate by coordinate. */
  function Move(q: Vec4, st: Step): Vec4
  {
    match st
    case Scale2DBy(sx, sy) => Vec4(sx * q.x, sy * q.y, q.z, q.w)
    case RotateZBy(c, s) => Vec4(c * q.x - s * q.y, s * q.x + c * q.y, q.z, q.w)
    case Translate2DBy(tx, ty) => Vec4(q.x + tx * q.w, q.y + ty * q.w, q.z, q.w)
    case Shear2DBy(shx, shy) => Vec4(q.x + shx * q.y, shy * q.x + q.y, q.z, q.w)
    case TranslateBy(tx, ty, tz) => Vec4(q.x + tx * q.w, q.y + ty * q.w, q.z + tz * q.w, q.w)
    case ScaleBy(sx, sy, sz) => Vec4(sx * q.x, sy * q.y, sz * q.z, q.w)
    case RotateXBy(c, s) => Vec4(q.x, c * q.y - s * q.z, s * q.y + c * q.z, q.w)
    case RotateYBy(c, s) => Vec4(c * q.x + s * q.z, q.y, c * q.z - s * q.x, q.w)
    case RotateXYZBy(u, v, w) => Vec4(Dot(u, q), Dot(v, q), Dot(w, q), q.w)
    case ShearZBy(shx, shy) => Vec4(q.x + shx * q.z, q.y + shy * q.z, q.z, q.w)
    case PerspectiveBy(d) => Vec4(q.x, q.y, q.z, Quot(1.0, d) * q.z)
  }

  /** A point moved through the steps, first to last. */
  function MoveAll(q: Vec4, steps: seq<Step>): Vec4
    decreases |steps|
  {
    if |steps| == 0 then q else MoveAll(Move(q, steps[0]), steps[1..])
  }

  /** Each step's matrix moves points as `Move` says. */
  lemma StepActs(st: Step, q: Vec4)
    ensures Xform(StepMatrix(st), q) == Move(q, st)
  {
    match st
    case Scale2DBy(sx, sy) => Scale2DActs(sx, sy, q);
    case RotateZBy(c, s) => RotateZActs(c, s, q);
    case Translate2DBy(tx, ty) => Translate2DActs(tx, ty, q);
    case Shear2DBy(shx, shy) => Shear2DActs(shx, shy, q);
    case TranslateBy(tx, ty, tz) => TranslateActs(tx, ty, tz, q);
    case ScaleBy(sx, sy, sz) => ScaleActs(sx, sy, sz, q);
    case RotateXBy(c, s) => RotateXActs(c, s, q);
    case RotateYBy(c, s) => RotateYActs(c, s, q);
    case RotateXYZBy(u, v, w) => RotateXYZActs(u, v, w, q);
    case ShearZBy(shx, shy) => ShearZActs(shx, shy, q);
    case PerspectiveBy(d) => PerspectiveActs(d, q);
  }

  /** The 2D shear adds shx·y to x and shy·x to y. */
  lemma Shear2DActs(shx: real, shy: real, q: Vec4)
    ensures Xform(StepMatrix(Shear2DBy(shx, shy)), q) == Move(q, Shear2DBy(shx, shy))
  {
  }

  /** The x rotation turns (y, z). */
  lemma RotateXActs(c: real, s: real, q: Vec4)
    ensures Xform(StepMatrix(RotateXBy(c, s)), q) == Move(q, RotateXBy(c, s))
  {
  }

  /** The y rotation turns (z, x). */
  lemma RotateYActs(c: real, s: real, q: Vec4)
    ensures Xform(StepMatrix(RotateYBy(c, s)), q) == Move(q, RotateYBy(c, s))
  {
  }

  /** The z shear adds shx·z to x and shy·z to y. */
  lemma ShearZActs(shx: real, shy: real, q: Vec4)
    ensures Xform(StepMatrix(ShearZBy(shx, shy)), q) == Move(q, ShearZBy(shx, shy))
  {
  }

  /** Transforming by Apply(m, st) is transforming by m, then moving. */
  lemma ApplyActs(m: Matrix, st: Step, p: Vec4)
    ensures Xform(Apply(m, st), p) == Move(Xform(m, p), st)
  {
    XformMultiply(StepMatrix(st), m, p);
    StepActs(st, Xform(m, p));
  }

  /** Transforming by the matrix a sequence of builder calls produces is
      transforming by the starting matrix and then moving the point
      through the steps in the order they were applied. */
  lemma {:induction false} ApplyAllActs(m: Matrix, steps: seq<Step>, p: Vec4)
    ensures Xform(ApplyAll(m, steps), p) == MoveAll(Xform(m, p), steps)
    decreases |steps|
  {
    if |steps| > 0 {
      ApplyActs(m, steps[0], p);
      ApplyAllActs(Apply(m, steps[0]), steps[1..], p);
    }
  }

  /** Moving through four steps, one at a time. */
  lemma MoveAllUnroll4(q: Vec4, steps: seq<Step>)
    requires |steps| == 4
    ensures MoveAll(q, steps) == Move(Move(Move(Move(q, steps[0]), steps[1]), steps[2]), steps[3])
  {
    var q1 := Move(q, steps[0]);
    assert MoveAll(q, steps) == MoveAll(q1, steps[1..]);
    var q2 := Move(q1, steps[1]);
    assert MoveAll(q1, steps[1..]) == MoveAll(q2, steps[2..]);
    var q3 := Move(q2, steps[2]);
    assert MoveAll(q2, steps[2..]) == MoveAll(q3, steps[3..]);
  }

  /** Moving through four steps whose single moves are known. */
  lemma MoveAllChain4(q: Vec4, a: Step, b: Step, c: Step, d: Step, q1: Vec4, q2: Vec4, q3: Vec4, q4: Vec4)
    requires Move(q, a) == q1 && Move(q1, b) == q2 && Move(q2, c) == q3 && Move(q3, d) == q4
    ensures MoveAll(q, [a, b, c, d]) == q4
  {
    MoveAllUnroll4(q, [a, b, c, d]);
  }

  /** Moving through three steps, one at a time. */
  lemma MoveAllUnroll3(q: Vec4, steps: seq<Step>)
    requires |steps| == 3
    ensures MoveAll(q, steps) == Move(Move(Move(q, steps[0]), steps[1]), steps[2])
  {
    var q1 := Move(q, steps[0]);
    assert MoveAll(q, steps) == MoveAll(q1, steps[1..]);
    var q2 := Move(q1, steps[1]);
    assert MoveAll(q1, steps[1..]) == MoveAll(q2, steps[2..]);
    assert MoveAll(q2, steps[2..]) == MoveAll(Move(q2, steps[2]), steps[3..]);
    assert |steps[3..]| == 0;
  }

  /** Moving through two sequences of steps is moving through their
      concatenation. */
  lemma {:induction false} MoveAllAppend(q: Vec4, a: seq<Step>, b: seq<Step>)
    ensures MoveAll(q, a + b) == MoveAll(MoveAll(q, a), b)
    decreases |a|
  {
    if |a| > 0 {
      assert (a + b)[1..] == a[1..] + b;
      MoveAllAppend(Move(q, a[0]), a[1..], b);
    } else {
      assert a + b == b;
    }
  }

  // ------------------------------------------------------ shape transforms

  /** Matrix_xformLine: both endpoints transformed as points. */
  function XformLine(m: Matrix, l: Lines.Line): (r: Lines.Line)
    ensures r.zBuffer == l.zBuffer && r.a == Xform(m, l.a) && r.b == Xform(m, l.b)
  {
    l.(a := Xform(m, l.a), b := Xform(m, l.b))
  }

  /** Matrix_xformPolyline: every vertex transformed as a point. */
  function XformPolyline(m: Matrix, p: Polylines.Polyline): (r: Polylines.Polyline)
    ensures r.zBuffer == p.zBuffer && |r.vertex| == |p.vertex|
    ensures forall i :: 0 <= i < |p.vertex| ==> r.vertex[i] == Xform(m, p.vertex[i])
  {
    p.(vertex := seq(|p.vertex|, i requires 0 <= i < |p.vertex| => Xform(m, p.vertex[i])))
  }

  /** Matrix_xformPolygon: vertex i as a point and normal i as a vector, by
      the same matrix, for every vertex.  The C dereferences the normal
      array unconditionally, so a polygon without normals is excluded. */
  function XformPolygon(m: Matrix, p: Polygons.Polygon): (r: Polygons.Polygon)
    requires p.normal.Some? && |p.normal.value| >= |p.vertex|
    ensures |r.vertex| == |p.vertex| && r.normal.Some? && |r.normal.value| == |p.normal.value|
    ensures forall i :: 0 <= i < |p.vertex| ==>
              r.vertex[i] == Xform(m, p.vertex[i]) && r.normal.value[i] == Xform(m, p.normal.value[i])
    ensures forall i :: |p.vertex| <= i < |p.normal.value| ==> r.normal.value[i] == p.normal.value[i]
    ensures r.(vertex := p.vertex, normal := p.normal) == p
  {
    var n := |p.vertex|;
    var ns := p.normal.value;
    p.(vertex := seq(n, i requires 0 <= i < n => Xform(m, p.vertex[i])),
       normal := Some(seq(n, i requires 0 <= i < n => Xform(m, ns[i])) + ns[n..]))
  }

  /** Transforming a polyline by b and then by a is transforming it by a × b. */
  lemma XformPolylineCompose(a: Matrix, b: Matrix, p: Polylines.Polyline)
    ensures XformPolyline(a, XformPolyline(b, p)) == XformPolyline(Multiply(a, b), p)
  {
    forall i | 0 <= i < |p.vertex|
      ensures Xform(a, Xform(b, p.vertex[i])) == Xform(Multiply(a, b), p.vertex[i])
    {
      XformMultiply(a, b, p.vertex[i]);
    }
  }

  /** Transforming a polygon by b and then by a is transforming it by a × b. */
  lemma XformPolygonCompose(a: Matrix, b: Matrix, p: Polygons.Polygon)
    requires p.normal.Some? && |p.normal.value| >= |p.vertex|
    ensures XformPolygon(a, XformPolygon(b, p)) == XformPolygon(Multiply(a, b), p)
  {
    var l, r := XformPolygon(a, XformPolygon(b, p)), XformPolygon(Multiply(a, b), p);
    forall i | 0 <= i < |p.vertex|
      ensures l.vertex[i] == r.vertex[i] && l.normal.value[i] == r.normal.value[i]
    {
      XformMultiply(a, b, p.vertex[i]);
      XformMultiply(a, b, p.normal.value[i]);
    }
    assert l.normal.value == r.normal.value;
  }
}

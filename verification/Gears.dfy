/**
 The matrix library of clients/es2gears.c: 4x4 matrices in 16-element arrays,
 column by column. Floats are reals; an angle enters as its sine and cosine.
 */
module Gears {

  type Matrix = m: seq<real> | |m| == 16 witness seq(16, _ => 0.0)

  // -------------------------------------------------------------------- vectors

  datatype Vec = Vec(x: real, y: real, z: real, w: real)

  function Dot(a: Vec, b: Vec): real {
    a.x * b.x + a.y * b.y + a.z * b.z + a.w * b.w
  }

  /** Row r and column c of a matrix. */
  function Row(m: Matrix, r: nat): Vec
    requires r < 4
  {
    Vec(m[r], m[r + 4], m[r + 8], m[r + 12])
  }

  function Column(m: Matrix, c: nat): Vec
    requires c < 4
  {
    Vec(m[4 * c], m[4 * c + 1], m[4 * c + 2], m[4 * c + 3])
  }

  // ------------------------------------------------------------ matrix algebra

  /** Row r, column c. */
  function Entry(m: Matrix, r: nat, c: nat): real
    requires r < 4 && c < 4
  {
    m[r + 4 * c]
  }

  /** The matrix product m n: each entry is a row of m times a column of n. */
  function Product(m: Matrix, n: Matrix): Matrix {
    seq(16, i requires 0 <= i < 16 => Dot(Row(m, i % 4), Column(n, i / 4)))
  }

  lemma ProductEntry(m: Matrix, n: Matrix, r: nat, c: nat)
    requires r < 4 && c < 4
    ensures Entry(Product(m, n), r, c) == Dot(Row(m, r), Column(n, c))
  {
  }

  ghost predicate Agree(m: Matrix, n: Matrix, r: nat, c: nat) {
    r < 4 && c < 4 && Entry(m, r, c) == Entry(n, r, c)
  }

  lemma EqualByEntries(m: Matrix, n: Matrix)
    requires forall r: nat, c: nat | r < 4 && c < 4 :: Agree(m, n, r, c)
    ensures m == n
  {
    forall i | 0 <= i < 16 ensures m[i] == n[i] {
      assert Agree(m, n, i % 4, i / 4);
    }
  }

  function Combine(m: Matrix, v: Vec): Vec {
    Vec(Dot(Row(m, 0), v), Dot(Row(m, 1), v), Dot(Row(m, 2), v), Dot(Row(m, 3), v))
  }

  function CombineLeft(v: Vec, m: Matrix): Vec {
    Vec(Dot(v, Column(m, 0)), Dot(v, Column(m, 1)), Dot(v, Column(m, 2)), Dot(v, Column(m, 3)))
  }

  function Scale(k: real, v: Vec): Vec {
    Vec(k * v.x, k * v.y, k * v.z, k * v.w)
  }

  function Add(u: Vec, v: Vec): Vec {
    Vec(u.x + v.x, u.y + v.y, u.z + v.z, u.w + v.w)
  }

  lemma DotScale(k: real, v: Vec, n: Vec)
    ensures Dot(Scale(k, v), n) == k * Dot(v, n)
  {
    assert k * (v.x * n.x + v.y * n.y + v.z * n.z + v.w * n.w)
        == (k * v.x) * n.x + (k * v.y) * n.y + (k * v.z) * n.z + (k * v.w) * n.w;
  }

  lemma DotAdd(u: Vec, v: Vec, n: Vec)
    ensures Dot(Add(u, v), n) == Dot(u, n) + Dot(v, n)
  {
  }

  function Sum(p: Vec, q: Vec, r: Vec, s: Vec): Vec {
    Add(Add(p, q), Add(r, s))
  }

  lemma DotSum(p: Vec, q: Vec, r: Vec, s: Vec, n: Vec)
    ensures Dot(Sum(p, q, r, s), n) == Dot(p, n) + Dot(q, n) + Dot(r, n) + Dot(s, n)
  {
    DotAdd(Add(p, q), Add(r, s), n);
    DotAdd(p, q, n);
    DotAdd(r, s, n);
  }

  lemma CombineLeftIsSum(a: Vec, m: Matrix)
    ensures CombineLeft(a, m)
      == Sum(Scale(a.x, Row(m, 0)), Scale(a.y, Row(m, 1)), Scale(a.z, Row(m, 2)), Scale(a.w, Row(m, 3)))
  {
  }

  /** (a m) n = a (m n) for a row a and a column n. */
  lemma DotAssociates(a: Vec, m: Matrix, n: Vec)
    ensures Dot(CombineLeft(a, m), n) == Dot(a, Combine(m, n))
  {
    var p, q, r, s := Row(m, 0), Row(m, 1), Row(m, 2), Row(m, 3);
    CombineLeftIsSum(a, m);
    DotSum(Scale(a.x, p), Scale(a.y, q), Scale(a.z, r), Scale(a.w, s), n);
    DotScale(a.x, p, n);
    DotScale(a.y, q, n);
    DotScale(a.z, r, n);
    DotScale(a.w, s, n);
  }

  lemma ProductRow(m: Matrix, n: Matrix, r: nat)
    requires r < 4
    ensures Row(Product(m, n), r) == CombineLeft(Row(m, r), n)
  {
    ProductEntry(m, n, r, 0);
    ProductEntry(m, n, r, 1);
    ProductEntry(m, n, r, 2);
    ProductEntry(m, n, r, 3);
  }

  lemma ProductColumn(m: Matrix, n: Matrix, c: nat)
    requires c < 4
    ensures Column(Product(m, n), c) == Combine(m, Column(n, c))
  {
    ProductEntry(m, n, 0, c);
    ProductEntry(m, n, 1, c);
    ProductEntry(m, n, 2, c);
    ProductEntry(m, n, 3, c);
  }

  lemma ProductAssociates(a: Matrix, m: Matrix, n: Matrix)
    ensures Product(Product(a, m), n) == Product(a, Product(m, n))
  {
    var p, q := Product(Product(a, m), n), Product(a, Product(m, n));
    forall r: nat, c: nat | r < 4 && c < 4 ensures Agree(p, q, r, c) {
      ProductEntry(Product(a, m), n, r, c);
      ProductEntry(a, Product(m, n), r, c);
      ProductRow(a, m, r);
      ProductColumn(m, n, c);
      DotAssociates(Row(a, r), m, Column(n, c));
    }
    EqualByEntries(p, q);
  }

  // ------------------------------------------------------- elementary matrices

  /** k times the identity. */
  function Diagonal(k: real): Matrix {
    [k, 0.0, 0.0, 0.0,  0.0, k, 0.0, 0.0,  0.0, 0.0, k, 0.0,  0.0, 0.0, 0.0, k]
  }

  function Transposed(m: Matrix): Matrix {
    [m[0], m[4], m[8], m[12],  m[1], m[5], m[9], m[13],  m[2], m[6], m[10], m[14],  m[3], m[7], m[11], m[15]]
  }

  function Translation(x: real, y: real, z: real): Matrix {
    [1.0, 0.0, 0.0, 0.0,  0.0, 1.0, 0.0, 0.0,  0.0, 0.0, 1.0, 0.0,  x, y, z, 1.0]
  }

  /** Rotation about (x, y, z) by the angle with sine s and cosine c. */
  function Rotation(s: real, c: real, x: real, y: real, z: real): Matrix {
    [x * x * (1.0 - c) + c, y * x * (1.0 - c) + z * s, x * z * (1.0 - c) - y * s, 0.0,
     x * y * (1.0 - c) - z * s, y * y * (1.0 - c) + c, y * z * (1.0 - c) + x * s, 0.0,
     x * z * (1.0 - c) + y * s, y * z * (1.0 - c) - x * s, z * z * (1.0 - c) + c, 0.0,
     0.0, 0.0, 0.0, 1.0]
  }

  /** The rotation blocks invert transposes first, with the translation set aside. */
  function Inverse(m: Matrix): Matrix {
    Product(Transposed(Settled(m)), MovedBack(m))
  }

  /** The inverse of the matrix's translation. */
  function MovedBack(m: Matrix): Matrix {
    Translation(-m[12], -m[13], -m[14])
  }

  /** The matrix without its translation. */
  function Settled(m: Matrix): Matrix {
    m[12 := 0.0][13 := 0.0][14 := 0.0]
  }

  // -------------------------------------------------------------- rigid motions

  datatype Spatial = Spatial(x: real, y: real, z: real)

  function Inner(a: Spatial, b: Spatial): real {
    a.x * b.x + a.y * b.y + a.z * b.z
  }

  /** Rows and columns of the rotation block; column 3 is the translation. */
  function BlockRow(m: Matrix, r: nat): Spatial
    requires r < 4
  {
    Spatial(m[r], m[r + 4], m[r + 8])
  }

  function BlockColumn(m: Matrix, c: nat): Spatial
    requires c < 4
  {
    Spatial(m[4 * c], m[4 * c + 1], m[4 * c + 2])
  }

  /** Three vectors of unit length at right angles. */
  predicate Orthonormal(u: Spatial, v: Spatial, w: Spatial) {
    && Inner(u, u) == 1.0 && Inner(v, v) == 1.0 && Inner(w, w) == 1.0
    && Inner(u, v) == 0.0 && Inner(v, w) == 0.0 && Inner(w, u) == 0.0
  }

  predicate OrthonormalColumns(m: Matrix) {
    Orthonormal(BlockColumn(m, 0), BlockColumn(m, 1), BlockColumn(m, 2))
  }

  predicate OrthonormalRows(m: Matrix) {
    Orthonormal(BlockRow(m, 0), BlockRow(m, 1), BlockRow(m, 2))
  }

  predicate OrthonormalBlock(m: Matrix) {
    OrthonormalColumns(m) && OrthonormalRows(m)
  }

  /** A rotation block and a translation, over the bottom row (0, 0, 0, 1). */
  predicate Rigid(m: Matrix) {
    OrthonormalBlock(m) && m[3] == 0.0 && m[7] == 0.0 && m[11] == 0.0 && m[15] == 1.0
  }

  function Combination(a: Spatial, u: Spatial, v: Spatial, w: Spatial): Spatial {
    Spatial(a.x * u.x + a.y * v.x + a.z * w.x, a.x * u.y + a.y * v.y + a.z * w.y, a.x * u.z + a.y * v.z + a.z * w.z)
  }

  lemma InnerSymmetric(u: Spatial, v: Spatial)
    ensures Inner(u, v) == Inner(v, u)
  {
  }

  lemma InnerCombination(a: Spatial, u: Spatial, v: Spatial, w: Spatial, n: Spatial)
    ensures Inner(Combination(a, u, v, w), n) == a.x * Inner(u, n) + a.y * Inner(v, n) + a.z * Inner(w, n)
  {
    assert a.x * Inner(u, n) == a.x * u.x * n.x + a.x * u.y * n.y + a.x * u.z * n.z;
    assert a.y * Inner(v, n) == a.y * v.x * n.x + a.y * v.y * n.y + a.y * v.z * n.z;
    assert a.z * Inner(w, n) == a.z * w.x * n.x + a.z * w.y * n.y + a.z * w.z * n.z;
    assert (a.x * u.x + a.y * v.x + a.z * w.x) * n.x == a.x * u.x * n.x + a.y * v.x * n.x + a.z * w.x * n.x;
    assert (a.x * u.y + a.y * v.y + a.z * w.y) * n.y == a.x * u.y * n.y + a.y * v.y * n.y + a.z * w.y * n.y;
    assert (a.x * u.z + a.y * v.z + a.z * w.z) * n.z == a.x * u.z * n.z + a.y * v.z * n.z + a.z * w.z * n.z;
  }

  /** In an orthonormal frame the coordinates give the inner product. */
  lemma FrameKeepsInner(a: Spatial, b: Spatial, u: Spatial, v: Spatial, w: Spatial)
    requires Orthonormal(u, v, w)
    ensures Inner(Combination(a, u, v, w), Combination(b, u, v, w)) == Inner(a, b)
  {
    var n := Combination(b, u, v, w);
    FrameCoordinates(b, u, v, w);
    InnerCombination(a, u, v, w, n);
  }

  lemma FrameCoordinates(b: Spatial, u: Spatial, v: Spatial, w: Spatial)
    requires Orthonormal(u, v, w)
    ensures Inner(u, Combination(b, u, v, w)) == b.x
    ensures Inner(v, Combination(b, u, v, w)) == b.y
    ensures Inner(w, Combination(b, u, v, w)) == b.z
  {
    FrameCoordinate(b, u, v, w, u);
    FrameCoordinate(b, u, v, w, v);
    FrameCoordinate(b, u, v, w, w);
    InnerSymmetric(u, v);
    InnerSymmetric(v, w);
    InnerSymmetric(w, u);
  }

  lemma FrameCoordinate(b: Spatial, u: Spatial, v: Spatial, w: Spatial, e: Spatial)
    ensures Inner(e, Combination(b, u, v, w)) == b.x * Inner(u, e) + b.y * Inner(v, e) + b.z * Inner(w, e)
  {
    InnerSymmetric(e, Combination(b, u, v, w));
    InnerCombination(b, u, v, w, e);
  }

  // ------------------------------------------------- rigid motions are a group

  /** u is the c-th axis. */
  predicate IsAxis(u: Vec, c: nat) {
    && u.x == (if c == 0 then 1.0 else 0.0) && u.y == (if c == 1 then 1.0 else 0.0)
    && u.z == (if c == 2 then 1.0 else 0.0) && u.w == (if c == 3 then 1.0 else 0.0)
  }

  lemma DiagonalAxes(c: nat)
    requires c < 4
    ensures IsAxis(Column(Diagonal(1.0), c), c) && IsAxis(Row(Diagonal(1.0), c), c)
  {
  }

  lemma DotAxis(a: Vec, u: Vec, c: nat)
    requires c < 4 && IsAxis(u, c)
    ensures var k := if c == 0 then a.x else if c == 1 then a.y else if c == 2 then a.z else a.w;
      Dot(a, u) == k && Dot(u, a) == k
  {
  }

  lemma NeutralEntry(m: Matrix, one: Matrix, r: nat, c: nat)
    requires r < 4 && c < 4 && IsAxis(Column(one, c), c) && IsAxis(Row(one, r), r)
    ensures Dot(Row(m, r), Column(one, c)) == Entry(m, r, c) && Dot(Row(one, r), Column(m, c)) == Entry(m, r, c)
  {
    DotAxis(Row(m, r), Column(one, c), c);
    DotAxis(Column(m, c), Row(one, r), r);
  }

  lemma IdentityIsNeutral(m: Matrix)
    ensures Product(m, Diagonal(1.0)) == m && Product(Diagonal(1.0), m) == m
  {
    var one := Diagonal(1.0);
    forall r: nat, c: nat | r < 4 && c < 4 ensures Agree(Product(m, one), m, r, c) && Agree(Product(one, m), m, r, c) {
      DiagonalAxes(r);
      DiagonalAxes(c);
      NeutralEntry(m, one, r, c);
      ProductEntry(m, one, r, c);
      ProductEntry(one, m, r, c);
    }
    EqualByEntries(Product(m, one), m);
    EqualByEntries(Product(one, m), m);
  }

  lemma CombinationsAreOrthonormal(p: Spatial, q: Spatial, r: Spatial, u: Spatial, v: Spatial, w: Spatial)
    requires Orthonormal(p, q, r)
    requires Orthonormal(u, v, w)
    ensures Orthonormal(Combination(p, u, v, w), Combination(q, u, v, w), Combination(r, u, v, w))
  {
    FrameKeepsInner(p, p, u, v, w);
    FrameKeepsInner(q, q, u, v, w);
    FrameKeepsInner(r, r, u, v, w);
    FrameKeepsInner(p, q, u, v, w);
    FrameKeepsInner(q, r, u, v, w);
    FrameKeepsInner(r, p, u, v, w);
  }

  lemma ProductBlockColumn(m: Matrix, n: Matrix, c: nat)
    requires c < 3 && n[4 * c + 3] == 0.0
    requires Rigid(m)
    ensures BlockColumn(Product(m, n), c)
      == Combination(BlockColumn(n, c), BlockColumn(m, 0), BlockColumn(m, 1), BlockColumn(m, 2))
    ensures Product(m, n)[4 * c + 3] == 0.0
  {
    ProductColumn(m, n, c);
    CombineParts(m, Column(n, c), BlockColumn(n, c));
    var p := Product(m, n);
    assert Column(p, c) == Vec(p[4 * c], p[4 * c + 1], p[4 * c + 2], p[4 * c + 3]);
  }

  lemma CombineParts(m: Matrix, v: Vec, p: Spatial)
    requires m[3] == m[7] == m[11] == 0.0
    requires v.w == 0.0 && p == Spatial(v.x, v.y, v.z)
    ensures var u := Combine(m, v);
      Spatial(u.x, u.y, u.z) == Combination(p, BlockColumn(m, 0), BlockColumn(m, 1), BlockColumn(m, 2))
    ensures Combine(m, v).w == 0.0
  {
  }

  lemma ProductBlockRow(m: Matrix, n: Matrix, r: nat)
    requires r < 3
    requires Rigid(n)
    ensures BlockRow(Product(m, n), r) == Combination(BlockRow(m, r), BlockRow(n, 0), BlockRow(n, 1), BlockRow(n, 2))
  {
    ProductRow(m, n, r);
    assert Row(Product(m, n), r) == CombineLeft(Row(m, r), n);
  }

  lemma ProductRigid(m: Matrix, n: Matrix)
    requires Rigid(m) && Rigid(n)
    ensures Rigid(Product(m, n))
  {
    ProductBlockColumn(m, n, 0);
    ProductBlockColumn(m, n, 1);
    ProductBlockColumn(m, n, 2);
    CombinationsAreOrthonormal(BlockColumn(n, 0), BlockColumn(n, 1), BlockColumn(n, 2),
                               BlockColumn(m, 0), BlockColumn(m, 1), BlockColumn(m, 2));
    ProductBlockRow(m, n, 0);
    ProductBlockRow(m, n, 1);
    ProductBlockRow(m, n, 2);
    CombinationsAreOrthonormal(BlockRow(m, 0), BlockRow(m, 1), BlockRow(m, 2),
                               BlockRow(n, 0), BlockRow(n, 1), BlockRow(n, 2));
    ProductColumn(m, n, 3);
    assert Column(Product(m, n), 3).w == Dot(Row(m, 3), Column(n, 3));
  }

  /** The first two columns of a rotation, with k for 1 - c. */
  function Leading(s: real, c: real, k: real, x: real, y: real, z: real): Spatial {
    Spatial(x * x * k + c, x * y * k + z * s, x * z * k - y * s)
  }

  function Second(s: real, c: real, k: real, x: real, y: real, z: real): Spatial {
    Spatial(x * y * k - z * s, y * y * k + c, y * z * k + x * s)
  }

  lemma LeadingSquare(s: real, c: real, k: real, x: real, y: real, z: real, n: real)
    requires n == x * x + y * y + z * z
    ensures var u := Leading(s, c, k, x, y, z);
      Inner(u, u) == x * x * (k * k * n + 2.0 * (k * c) - s * s) + c * c + s * s * n
  {
    var a := x * k;
    assert x * x * k == x * a && x * y * k == y * a && x * z * k == z * a;
    assert (x * a + c) * (x * a + c) == x * x * (a * a) + 2.0 * (x * a * c) + c * c;
    assert (y * a + z * s) * (y * a + z * s) == y * y * (a * a) + 2.0 * (y * a * (z * s)) + z * z * (s * s);
    assert (z * a - y * s) * (z * a - y * s) == z * z * (a * a) - 2.0 * (z * a * (y * s)) + y * y * (s * s);
    assert y * a * (z * s) == z * a * (y * s);
    assert a * a == x * x * (k * k);
    assert x * a * c == x * x * (k * c);
  }

  lemma LeadingSecond(s: real, c: real, k: real, x: real, y: real, z: real, n: real)
    requires n == x * x + y * y + z * z
    ensures Inner(Leading(s, c, k, x, y, z), Second(s, c, k, x, y, z)) == x * y * (k * k * n + 2.0 * (k * c) - s * s)
  {
    var a, b := x * k, y * k;
    assert (x * a + c) * (y * a - z * s) == x * y * (a * a) - x * a * z * s + c * y * a - c * z * s;
    assert (x * b + z * s) * (y * b + c) == x * y * (b * b) + x * b * c + z * s * y * b + z * s * c;
    assert (z * a - y * s) * (z * b + x * s) == z * z * (a * b) + z * a * x * s - y * s * z * b - x * y * (s * s);
  }

  /** A rotation's column has unit length, and two columns are at right angles. */
  lemma RotationPair(s: real, c: real, x: real, y: real, z: real)
    requires x * x + y * y + z * z == 1.0 && s * s + c * c == 1.0
    ensures var u, v := Leading(s, c, 1.0 - c, x, y, z), Second(s, c, 1.0 - c, x, y, z);
      Inner(u, u) == 1.0 && Inner(u, v) == 0.0
  {
    var k := 1.0 - c;
    LeadingSquare(s, c, k, x, y, z, 1.0);
    LeadingSecond(s, c, k, x, y, z, 1.0);
    assert k * k * 1.0 + 2.0 * (k * c) - s * s == 0.0;
  }

  /** A cyclic shift of a vector's coordinates. */
  function Shift(u: Spatial): Spatial {
    Spatial(u.y, u.z, u.x)
  }

  lemma ShiftKeepsInner(u: Spatial, v: Spatial)
    ensures Inner(Shift(u), Shift(v)) == Inner(u, v)
  {
  }

  lemma RotationColumns(s: real, c: real, x: real, y: real, z: real)
    requires x * x + y * y + z * z == 1.0 && s * s + c * c == 1.0
    ensures var m := Rotation(s, c, x, y, z);
      Orthonormal(BlockColumn(m, 0), BlockColumn(m, 1), BlockColumn(m, 2))
  {
    var m := Rotation(s, c, x, y, z);
    var u, v, w := BlockColumn(m, 0), BlockColumn(m, 1), BlockColumn(m, 2);
    var k := 1.0 - c;
    RotationPair(s, c, x, y, z);
    RotationPair(s, c, y, z, x);
    RotationPair(s, c, z, x, y);
    assert u == Leading(s, c, k, x, y, z) && v == Second(s, c, k, x, y, z);
    assert Shift(v) == Leading(s, c, k, y, z, x) && Shift(w) == Second(s, c, k, y, z, x);
    assert Shift(Shift(w)) == Leading(s, c, k, z, x, y) && Shift(Shift(u)) == Second(s, c, k, z, x, y);
    ShiftKeepsInner(v, v);
    ShiftKeepsInner(v, w);
    ShiftKeepsInner(w, w);
    ShiftKeepsInner(w, u);
    ShiftKeepsInner(Shift(w), Shift(w));
    ShiftKeepsInner(Shift(w), Shift(u));
  }

  lemma RotationTransposed(s: real, c: real, x: real, y: real, z: real)
    ensures Transposed(Rotation(s, c, x, y, z)) == Rotation(-s, c, x, y, z)
  {
  }

  lemma RotationRigid(s: real, c: real, x: real, y: real, z: real)
    requires x * x + y * y + z * z == 1.0 && s * s + c * c == 1.0
    ensures Rigid(Rotation(s, c, x, y, z))
  {
    RotationColumns(s, c, x, y, z);
    RotationColumns(-s, c, x, y, z);
    RotationTransposed(s, c, x, y, z);
  }

  /** The axes. */
  predicate Axes(u: Spatial, v: Spatial, w: Spatial) {
    && u.x == 1.0 && u.y == u.z == 0.0
    && v.y == 1.0 && v.x == v.z == 0.0
    && w.z == 1.0 && w.x == w.y == 0.0
  }

  lemma AxesOrthonormal(u: Spatial, v: Spatial, w: Spatial)
    requires Axes(u, v, w)
    ensures Orthonormal(u, v, w)
  {
  }

  /** No rotation. */
  predicate UnitBlock(m: Matrix) {
    && m[0] == m[5] == m[10] == m[15] == 1.0
    && m[1] == m[2] == m[3] == m[4] == m[6] == m[7] == m[8] == m[9] == m[11] == 0.0
  }

  lemma TranslationUnitBlock(x: real, y: real, z: real)
    ensures UnitBlock(Translation(x, y, z)) && UnitBlock(Diagonal(1.0))
  {
  }

  lemma UnitBlockColumns(m: Matrix)
    requires UnitBlock(m)
    ensures OrthonormalColumns(m)
  {
    AxesOrthonormal(BlockColumn(m, 0), BlockColumn(m, 1), BlockColumn(m, 2));
  }

  lemma UnitBlockRows(m: Matrix)
    requires UnitBlock(m)
    ensures OrthonormalRows(m)
  {
    AxesOrthonormal(BlockRow(m, 0), BlockRow(m, 1), BlockRow(m, 2));
  }

  lemma UnitBlockRigid(m: Matrix)
    requires UnitBlock(m)
    ensures Rigid(m)
  {
    UnitBlockColumns(m);
    UnitBlockRows(m);
  }

  datatype Motion = Translate(x: real, y: real, z: real) | Rotate(s: real, c: real, x: real, y: real, z: real)

  /** A rotation is about a unit axis, by the sine and cosine of some angle. */
  predicate Proper(motion: Motion) {
    motion.Rotate? ==>
      motion.x * motion.x + motion.y * motion.y + motion.z * motion.z == 1.0
        && motion.s * motion.s + motion.c * motion.c == 1.0
  }

  function MotionMatrix(motion: Motion): Matrix {
    match motion
    case Translate(x, y, z) => Translation(x, y, z)
    case Rotate(s, c, x, y, z) => Rotation(s, c, x, y, z)
  }

  /** The matrix left by a run of translate and rotate calls on the identity. */
  function Built(motions: seq<Motion>): Matrix {
    if motions == [] then Diagonal(1.0)
    else Product(Built(motions[..|motions| - 1]), MotionMatrix(motions[|motions| - 1]))
  }

  lemma MotionRigid(motion: Motion)
    requires Proper(motion)
    ensures Rigid(MotionMatrix(motion))
  {
    match motion
    case Translate(x, y, z) =>
      TranslationUnitBlock(x, y, z);
      UnitBlockRigid(MotionMatrix(motion));
    case Rotate(s, c, x, y, z) =>
      RotationRigid(s, c, x, y, z);
  }

  lemma {:induction false} BuiltRigid(motions: seq<Motion>)
    requires forall motion <- motions :: Proper(motion)
    ensures Rigid(Built(motions))
  {
    if motions == [] {
      TranslationUnitBlock(0.0, 0.0, 0.0);
      UnitBlockRigid(Diagonal(1.0));
    } else {
      var most, last := motions[..|motions| - 1], motions[|motions| - 1];
      BuiltRigid(most);
      MotionRigid(last);
      ProductRigid(Built(most), MotionMatrix(last));
    }
  }

  /** One run after another is the product of the two. */
  lemma {:induction false} BuiltOfConcatenation(first: seq<Motion>, second: seq<Motion>)
    ensures Built(first + second) == Product(Built(first), Built(second))
  {
    if second == [] {
      assert first + second == first;
      IdentityIsNeutral(Built(first));
    } else {
      var most, last := second[..|second| - 1], second[|second| - 1];
      assert (first + second)[..|first + second| - 1] == first + most;
      BuiltOfConcatenation(first, most);
      ProductAssociates(Built(first), Built(most), MotionMatrix(last));
    }
  }

  // ------------------------------------------------------------------ inversion

  lemma TranslationColumns(x: real, y: real, z: real)
    ensures Column(Translation(x, y, z), 0) == Vec(1.0, 0.0, 0.0, 0.0)
    ensures Column(Translation(x, y, z), 1) == Vec(0.0, 1.0, 0.0, 0.0)
    ensures Column(Translation(x, y, z), 2) == Vec(0.0, 0.0, 1.0, 0.0)
    ensures Column(Translation(x, y, z), 3) == Vec(x, y, z, 1.0)
  {
  }

  lemma SettledTransposedRows(m: Matrix)
    ensures var t := Transposed(Settled(m));
      && Row(t, 0) == Column(m, 0) && Row(t, 1) == Column(m, 1) && Row(t, 2) == Column(m, 2)
      && Row(t, 3) == Vec(0.0, 0.0, 0.0, m[15])
  {
  }

  /** A row times a translation matrix. */
  lemma TimesTranslation(v: Vec, x: real, y: real, z: real)
    ensures CombineLeft(v, Translation(x, y, z)) == v.(w := v.x * x + v.y * y + v.z * z + v.w)
  {
    TranslationColumns(x, y, z);
  }

  lemma MovedBackW(u: Vec, p: Spatial, o: Spatial)
    requires p == Spatial(u.x, u.y, u.z)
    ensures u.x * -o.x + u.y * -o.y + u.z * -o.z + u.w == u.w - Inner(p, o)
  {
  }

  lemma InverseRow(m: Matrix, r: nat)
    requires r < 3
    ensures InverseRowAt(m, Inverse(m), r)
  {
    SettledTransposedRows(m);
    RowOfInverse(m, Transposed(Settled(m)), MovedBack(m), r);
  }

  lemma RowOfInverse(m: Matrix, t: Matrix, n: Matrix, r: nat)
    requires r < 3 && Row(t, r) == Column(m, r) && n == MovedBack(m)
    ensures InverseRowAt(m, Product(t, n), r)
  {
    RowMovedBack(m, t, r);
    RowInverts(m, Product(t, n), r);
  }

  lemma RowMovedBack(m: Matrix, t: Matrix, r: nat)
    requires r < 4
    ensures Row(Product(t, MovedBack(m)), r)
      == Row(t, r).(w := Row(t, r).x * -m[12] + Row(t, r).y * -m[13] + Row(t, r).z * -m[14] + Row(t, r).w)
  {
    ProductRow(t, MovedBack(m), r);
    TimesTranslation(Row(t, r), -m[12], -m[13], -m[14]);
  }

  lemma RowInverts(m: Matrix, v: Matrix, r: nat)
    requires r < 3
    requires var u := Column(m, r); Row(v, r) == u.(w := u.x * -m[12] + u.y * -m[13] + u.z * -m[14] + u.w)
    ensures InverseRowAt(m, v, r)
  {
    MovedBackW(Column(m, r), BlockColumn(m, r), BlockColumn(m, 3));
  }

  lemma InverseBottom(m: Matrix)
    ensures Row(Inverse(m), 3) == Vec(0.0, 0.0, 0.0, m[15])
  {
    SettledTransposedRows(m);
    RowMovedBack(m, Transposed(Settled(m)), 3);
  }

  /** Where invert gives a two-sided inverse: a rigid matrix, or a pure rotation
      over the bottom row (0, 0, 0, -1). */
  predicate Invertible(m: Matrix) {
    && OrthonormalBlock(m)
    && m[3] == 0.0 && m[7] == 0.0 && m[11] == 0.0
    && (m[15] == 1.0 || (m[15] == -1.0 && m[12] == 0.0 && m[13] == 0.0 && m[14] == 0.0))
  }

  predicate TwoSidedInverse(m: Matrix, n: Matrix) {
    Product(m, n) == Diagonal(1.0) && Product(n, m) == Diagonal(1.0)
  }

  function Delta(r: nat, c: nat): real {
    if r == c then 1.0 else 0.0
  }

  ghost predicate Unit(m: Matrix, r: nat, c: nat) {
    r < 4 && c < 4 && Entry(m, r, c) == Delta(r, c)
  }

  lemma IdentityUnit(r: nat, c: nat)
    requires r < 4 && c < 4
    ensures Unit(Diagonal(1.0), r, c)
  {
  }

  lemma UnitIsIdentity(m: Matrix)
    requires forall r: nat, c: nat | r < 4 && c < 4 :: Unit(m, r, c)
    ensures m == Diagonal(1.0)
  {
    forall r: nat, c: nat | r < 4 && c < 4 ensures Agree(m, Diagonal(1.0), r, c) {
      assert Unit(m, r, c);
      IdentityUnit(r, c);
    }
    EqualByEntries(m, Diagonal(1.0));
  }

  /** v has the rows of Inverse(m). */
  predicate InverseRowAt(m: Matrix, v: Matrix, r: nat) {
    r < 3 && Row(v, r) == Column(m, r).(w := m[4 * r + 3] - Inner(BlockColumn(m, r), BlockColumn(m, 3)))
  }

  predicate InverseRows(m: Matrix, v: Matrix) {
    && InverseRowAt(m, v, 0) && InverseRowAt(m, v, 1) && InverseRowAt(m, v, 2)
    && v[3] == v[7] == v[11] == 0.0 && v[15] == m[15]
  }

  lemma InverseHasRows(m: Matrix)
    ensures InverseRows(m, Inverse(m))
  {
    InverseRow(m, 0);
    InverseRow(m, 1);
    InverseRow(m, 2);
    InverseBottomEntries(m);
  }

  lemma InverseBottomEntries(m: Matrix)
    ensures Inverse(m)[3] == Inverse(m)[7] == Inverse(m)[11] == 0.0 && Inverse(m)[15] == m[15]
  {
    var v := Inverse(m);
    InverseBottom(m);
    assert Row(v, 3) == Vec(v[3], v[7], v[11], v[15]);
  }

  /** The entries of the inverse times m. */
  lemma LeftEntry(m: Matrix, v: Matrix, r: nat, c: nat)
    requires InverseRowAt(m, v, r) && c < 4
    ensures Dot(Row(v, r), Column(m, c))
         == Inner(BlockColumn(m, r), BlockColumn(m, c))
            + (m[4 * r + 3] - Inner(BlockColumn(m, r), BlockColumn(m, 3))) * m[4 * c + 3]
  {
    DotParts(Row(v, r), Column(m, c), BlockColumn(m, r), BlockColumn(m, c));
  }

  lemma DotParts(a: Vec, b: Vec, p: Spatial, q: Spatial)
    requires p == Spatial(a.x, a.y, a.z) && q == Spatial(b.x, b.y, b.z)
    ensures Dot(a, b) == Inner(p, q) + a.w * b.w
  {
  }

  lemma LeftBottomEntry(m: Matrix, v: Matrix, c: nat)
    requires InverseRows(m, v) && c < 4
    ensures Dot(Row(v, 3), Column(m, c)) == m[15] * m[4 * c + 3]
  {
  }

  /** The columns of the inverse: the rows of m, then the moved-back translation. */
  lemma InverseColumn(m: Matrix, v: Matrix, c: nat)
    requires InverseRows(m, v) && c < 3
    ensures BlockColumn(v, c) == BlockRow(m, c) && v[4 * c + 3] == 0.0
  {
    assert Row(v, 0).x == v[0] && Row(v, 1).x == v[1] && Row(v, 2).x == v[2] && Row(v, 3).x == v[3];
    assert Row(v, 0).y == v[4] && Row(v, 1).y == v[5] && Row(v, 2).y == v[6] && Row(v, 3).y == v[7];
    assert Row(v, 0).z == v[8] && Row(v, 1).z == v[9] && Row(v, 2).z == v[10] && Row(v, 3).z == v[11];
  }

  function Negated(u: Spatial): Spatial {
    Spatial(-u.x, -u.y, -u.z)
  }

  lemma InverseTranslation(m: Matrix, v: Matrix)
    requires InverseRows(m, v)
    requires m[3] == m[7] == m[11] == 0.0
    ensures BlockColumn(v, 3) == Combination(Negated(BlockColumn(m, 3)), BlockRow(m, 0), BlockRow(m, 1), BlockRow(m, 2))
    ensures v[15] == m[15]
  {
    assert Row(v, 0).w == v[12] && Row(v, 1).w == v[13] && Row(v, 2).w == v[14] && Row(v, 3).w == v[15];
  }

  /** The entries of m times the inverse. */
  lemma RightEntry(m: Matrix, v: Matrix, r: nat, c: nat)
    requires InverseRows(m, v) && r < 4 && c < 3
    ensures Dot(Row(m, r), Column(v, c)) == Inner(BlockRow(m, r), BlockRow(m, c))
  {
    InverseColumn(m, v, c);
  }

  lemma MovedBackCoordinate(m: Matrix, u: Spatial, r: nat)
    requires r < 3 && OrthonormalRows(m)
    requires u == Combination(Negated(BlockColumn(m, 3)), BlockRow(m, 0), BlockRow(m, 1), BlockRow(m, 2))
    ensures Inner(BlockRow(m, r), u) == -m[12 + r]
  {
    var o := Negated(BlockColumn(m, 3));
    FrameCoordinates(o, BlockRow(m, 0), BlockRow(m, 1), BlockRow(m, 2));
    match r {
      case 0 => assert o.x == -m[12];
      case 1 => assert o.y == -m[13];
      case 2 => assert o.z == -m[14];
    }
  }

  lemma RightLastEntry(m: Matrix, v: Matrix, r: nat)
    requires InverseRows(m, v) && r < 4
    requires m[3] == m[7] == m[11] == 0.0
    requires OrthonormalRows(m)
    ensures Dot(Row(m, r), Column(v, 3)) == if r < 3 then m[12 + r] * m[15] - m[12 + r] else m[15] * m[15]
  {
    InverseTranslation(m, v);
    DotParts(Row(m, r), Column(v, 3), BlockRow(m, r), BlockColumn(v, 3));
    if r < 3 {
      MovedBackCoordinate(m, BlockColumn(v, 3), r);
    } else {
      InnerSymmetric(BlockRow(m, 3), BlockColumn(v, 3));
      InnerZero(BlockColumn(v, 3), BlockRow(m, 3));
    }
  }

  // ----------------------------------------------- when the inverse is one

  ghost predicate Cross(m: Matrix, n: Matrix, r: nat, c: nat) {
    r < 4 && c < 4 && Dot(Row(m, r), Column(n, c)) == Delta(r, c)
  }

  lemma ProductIsIdentity(m: Matrix, n: Matrix)
    ensures Product(m, n) == Diagonal(1.0) <==> forall r: nat, c: nat | r < 4 && c < 4 :: Cross(m, n, r, c)
  {
    var p := Product(m, n);
    forall r: nat, c: nat | r < 4 && c < 4 ensures Unit(p, r, c) <==> Cross(m, n, r, c) {
      ProductEntry(m, n, r, c);
    }
    if p == Diagonal(1.0) {
      forall r: nat, c: nat | r < 4 && c < 4 ensures Cross(m, n, r, c) {
        IdentityUnit(r, c);
        assert Unit(p, r, c);
      }
    }
    if forall r: nat, c: nat | r < 4 && c < 4 :: Cross(m, n, r, c) {
      forall r: nat, c: nat | r < 4 && c < 4 ensures Unit(p, r, c) {
        assert Cross(m, n, r, c);
      }
      UnitIsIdentity(p);
    }
  }

  lemma ColumnsDelta(m: Matrix, r: nat, c: nat)
    requires r < 3 && c < 3 && OrthonormalColumns(m)
    ensures Inner(BlockColumn(m, r), BlockColumn(m, c)) == Delta(r, c)
  {
    InnerSymmetric(BlockColumn(m, r), BlockColumn(m, c));
  }

  lemma RowsDelta(m: Matrix, r: nat, c: nat)
    requires r < 3 && c < 3 && OrthonormalRows(m)
    ensures Inner(BlockRow(m, r), BlockRow(m, c)) == Delta(r, c)
  {
    InnerSymmetric(BlockRow(m, r), BlockRow(m, c));
  }

  lemma LeftSuffices(m: Matrix, v: Matrix, r: nat, c: nat)
    requires InverseRows(m, v) && Invertible(m) && r < 4 && c < 4
    ensures Cross(v, m, r, c)
  {
    if r == 3 {
      LeftBottomEntry(m, v, c);
    } else {
      LeftEntry(m, v, r, c);
      if c < 3 {
        ColumnsDelta(m, r, c);
      } else {
        InnerZero(BlockColumn(m, r), BlockColumn(m, 3));
      }
    }
  }

  lemma InnerZero(u: Spatial, o: Spatial)
    ensures o == Spatial(0.0, 0.0, 0.0) ==> Inner(u, o) == 0.0
  {
  }

  lemma RightSuffices(m: Matrix, v: Matrix, r: nat, c: nat)
    requires InverseRows(m, v) && Invertible(m) && r < 4 && c < 4
    ensures Cross(m, v, r, c)
  {
    if c == 3 {
      RightLastEntry(m, v, r);
    } else {
      RightEntry(m, v, r, c);
      if r < 3 {
        RowsDelta(m, r, c);
      } else {
        InnerSymmetric(BlockRow(m, 3), BlockRow(m, c));
        InnerZero(BlockRow(m, c), BlockRow(m, 3));
      }
    }
  }

  /** A two-sided inverse makes the bottom row (0, 0, 0, 1) or (0, 0, 0, -1). */
  lemma BottomNeeded(m: Matrix, v: Matrix)
    requires InverseRows(m, v)
    requires Cross(v, m, 3, 0) && Cross(v, m, 3, 1) && Cross(v, m, 3, 2) && Cross(v, m, 3, 3)
    ensures m[3] == m[7] == m[11] == 0.0 && (m[15] == 1.0 || m[15] == -1.0)
  {
    LeftBottomEntry(m, v, 0);
    LeftBottomEntry(m, v, 1);
    LeftBottomEntry(m, v, 2);
    LeftBottomEntry(m, v, 3);
    var d := m[15];
    assert (d - 1.0) * (d + 1.0) == 0.0;
  }

  lemma ColumnNeeded(m: Matrix, v: Matrix, r: nat, c: nat)
    requires InverseRowAt(m, v, r) && c < 3
    requires Cross(v, m, r, c) && m[4 * c + 3] == 0.0
    ensures Inner(BlockColumn(m, r), BlockColumn(m, c)) == Delta(r, c)
  {
    LeftEntry(m, v, r, c);
  }

  lemma RowNeeded(m: Matrix, v: Matrix, r: nat, c: nat)
    requires InverseRows(m, v) && r < 3 && c < 3
    requires Cross(m, v, r, c)
    ensures Inner(BlockRow(m, r), BlockRow(m, c)) == Delta(r, c)
  {
    RightEntry(m, v, r, c);
  }

  ghost predicate BothCross(m: Matrix, v: Matrix, r: nat, c: nat) {
    Cross(m, v, r, c) && Cross(v, m, r, c)
  }

  lemma ColumnsNeeded(m: Matrix, v: Matrix)
    requires InverseRows(m, v)
    requires m[3] == m[7] == m[11] == 0.0
    requires forall r: nat, c: nat | r < 3 && c < 3 :: BothCross(m, v, r, c)
    ensures OrthonormalColumns(m)
  {
    forall r: nat, c: nat | r < 3 && c < 3 ensures Inner(BlockColumn(m, r), BlockColumn(m, c)) == Delta(r, c) {
      assert BothCross(m, v, r, c);
      ColumnNeeded(m, v, r, c);
    }
  }

  lemma RowsNeeded(m: Matrix, v: Matrix)
    requires InverseRows(m, v)
    requires forall r: nat, c: nat | r < 3 && c < 3 :: BothCross(m, v, r, c)
    ensures OrthonormalRows(m)
  {
    forall r: nat, c: nat | r < 3 && c < 3 ensures Inner(BlockRow(m, r), BlockRow(m, c)) == Delta(r, c) {
      assert BothCross(m, v, r, c);
      RowNeeded(m, v, r, c);
    }
  }

  lemma TranslationNeeded(m: Matrix, v: Matrix, r: nat)
    requires InverseRows(m, v) && r < 3
    requires m[3] == m[7] == m[11] == 0.0 && m[15] == -1.0
    requires OrthonormalRows(m) && Cross(m, v, r, 3)
    ensures m[12 + r] == 0.0
  {
    RightLastEntry(m, v, r);
  }

  lemma InvertibleNeeded(m: Matrix, v: Matrix)
    requires InverseRows(m, v)
    requires forall r: nat, c: nat | r < 4 && c < 4 :: BothCross(m, v, r, c)
    ensures Invertible(m)
  {
    assert BothCross(m, v, 3, 0) && BothCross(m, v, 3, 1) && BothCross(m, v, 3, 2) && BothCross(m, v, 3, 3);
    BottomNeeded(m, v);
    ColumnsNeeded(m, v);
    RowsNeeded(m, v);
    if m[15] == -1.0 {
      assert BothCross(m, v, 0, 3) && BothCross(m, v, 1, 3) && BothCross(m, v, 2, 3);
      TranslationNeeded(m, v, 0);
      TranslationNeeded(m, v, 1);
      TranslationNeeded(m, v, 2);
    }
  }

  /** invert yields a two-sided inverse exactly for rigid matrices, and for pure
      rotations over (0, 0, 0, -1). */
  lemma InverseIff(m: Matrix)
    ensures TwoSidedInverse(m, Inverse(m)) <==> Invertible(m)
  {
    var v := Inverse(m);
    InverseHasRows(m);
    ProductIsIdentity(m, v);
    ProductIsIdentity(v, m);
    if TwoSidedInverse(m, v) {
      forall r: nat, c: nat | r < 4 && c < 4 ensures BothCross(m, v, r, c) {
        assert Cross(m, v, r, c) && Cross(v, m, r, c);
      }
      InvertibleNeeded(m, v);
    }
    if Invertible(m) {
      forall r: nat, c: nat | r < 4 && c < 4 ensures Cross(m, v, r, c) && Cross(v, m, r, c) {
        LeftSuffices(m, v, r, c);
        RightSuffices(m, v, r, c);
      }
    }
  }

  /** Every matrix the demo builds by translating and rotating is inverted. */
  lemma BuiltInverse(motions: seq<Motion>)
    requires forall motion <- motions :: Proper(motion)
    ensures TwoSidedInverse(Built(motions), Inverse(Built(motions)))
  {
    BuiltRigid(motions);
    InverseIff(Built(motions));
  }

  /** The transposed inverse keeps the rotation block of any matrix. */
  lemma NormalMatrixKeepsBlock(m: Matrix, c: nat)
    requires c < 3
    ensures BlockColumn(Transposed(Inverse(m)), c) == BlockColumn(m, c)
  {
    InverseHasRows(m);
    TransposedBlock(Inverse(m), c);
    InverseRowBlock(m, Inverse(m), c);
  }

  lemma InverseRowBlock(m: Matrix, v: Matrix, r: nat)
    requires r < 3 && InverseRows(m, v)
    ensures BlockRow(v, r) == BlockColumn(m, r)
  {
    assert InverseRowAt(m, v, r);
    assert Row(v, r).x == v[r] && Row(v, r).y == v[r + 4] && Row(v, r).z == v[r + 8];
  }

  lemma TransposedBlock(m: Matrix, c: nat)
    requires c < 3
    ensures BlockColumn(Transposed(m), c) == BlockRow(m, c)
  {
  }

  // --------------------------------------------------------- the array routines

  /** The first j products of entry i of the matrix product. */
  function PartialDot(m: Matrix, n: Matrix, i: nat, j: nat): real
    requires i < 16 && j <= 4
  {
    if j == 0 then 0.0 else PartialDot(m, n, i, j - 1) + n[i / 4 * 4 + (j - 1)] * m[i % 4 + (j - 1) * 4]
  }

  lemma PartialDotComplete(m: Matrix, n: Matrix, i: nat)
    requires i < 16
    ensures PartialDot(m, n, i, 4) == Product(m, n)[i]
  {
    var row, column := i / 4 * 4, i % 4;
    assert PartialDot(m, n, i, 1) == n[row] * m[column];
    assert PartialDot(m, n, i, 2) == n[row] * m[column] + n[row + 1] * m[column + 4];
    assert PartialDot(m, n, i, 3) == n[row] * m[column] + n[row + 1] * m[column + 4] + n[row + 2] * m[column + 8];
  }

  method MultiplyEntry(m: array<real>, n: array<real>, i: nat) returns (sum: real)
    requires m.Length == 16 && n.Length == 16 && i < 16
    ensures sum == Product(m[..], n[..])[i]
  {
    sum := 0.0;
    var row, column := i / 4 * 4, i % 4;
    for j := 0 to 4
      invariant sum == PartialDot(m[..], n[..], i, j)
    {
      sum := sum + n[row + j] * m[column + j * 4];
    }
    PartialDotComplete(m[..], n[..], i);
  }

  method Multiply(m: array<real>, n: array<real>)
    requires m.Length == 16 && n.Length == 16
    modifies m
    ensures m[..] == Product(old(m[..]), old(n[..]))
  {
    var tmp := new real[16];
    ghost var product := Product(m[..], n[..]);
    for i := 0 to 16
      invariant m[..] == old(m[..]) && n[..] == old(n[..])
      invariant forall k :: 0 <= k < i ==> tmp[k] == product[k]
    {
      tmp[i] := MultiplyEntry(m, n, i);
    }
    assert tmp[..] == product;
    Copy(m, tmp[..]);
  }

  method Copy(m: array<real>, t: Matrix)
    requires m.Length == 16
    modifies m
    ensures m[..] == t
  {
    forall k | 0 <= k < 16 { m[k] := t[k]; }
  }

  method Rotate(m: array<real>, s: real, c: real, x: real, y: real, z: real)
    requires m.Length == 16
    modifies m
    ensures m[..] == Product(old(m[..]), Rotation(s, c, x, y, z))
  {
    var r := new real[16];
    Copy(r, Rotation(s, c, x, y, z));
    Multiply(m, r);
  }

  method Translate(m: array<real>, x: real, y: real, z: real)
    requires m.Length == 16
    modifies m
    ensures m[..] == Product(old(m[..]), Translation(x, y, z))
  {
    var t := new real[16];
    Copy(t, Translation(x, y, z));
    Multiply(m, t);
  }

  method Identity(m: array<real>)
    requires m.Length == 16
    modifies m
    ensures m[..] == Diagonal(1.0)
  {
    Copy(m, Diagonal(1.0));
  }

  method Transpose(m: array<real>)
    requires m.Length == 16
    modifies m
    ensures m[..] == Transposed(old(m[..]))
  {
    Copy(m, Transposed(m[..]));
  }

  lemma TranslationSet(t: Matrix, x: real, y: real, z: real)
    requires t == Diagonal(1.0)[12 := x][13 := y][14 := z]
    ensures t == Translation(x, y, z)
  {
  }

  /** The inverse of the translation, then the translation set to 0. */
  method SplitTranslation(m: array<real>) returns (t: array<real>)
    requires m.Length == 16
    modifies m
    ensures fresh(t) && t.Length == 16
    ensures t[..] == MovedBack(old(m[..]))
    ensures m[..] == Settled(old(m[..]))
  {
    t := new real[16];
    Identity(t);
    t[12], t[13], t[14] := -m[12], -m[13], -m[14];
    TranslationSet(t[..], -m[12], -m[13], -m[14]);
    m[12], m[13], m[14] := 0.0, 0.0, 0.0;
  }

  method Invert(m: array<real>)
    requires m.Length == 16
    modifies m
    ensures m[..] == Inverse(old(m[..]))
  {
    var t := SplitTranslation(m);
    Transpose(m);
    Multiply(m, t);
  }

  /** Where draw_gear puts a gear: moved to (x, y) and turned about its shaft. */
  function ModelView(transform: Matrix, x: real, y: real, s: real, c: real): Matrix {
    Product(Product(transform, Translation(x, y, 0.0)), Rotation(s, c, 0.0, 0.0, 1.0))
  }

  lemma MovedRigid(transform: Matrix, first: Motion, second: Motion)
    requires Rigid(transform) && Proper(first) && Proper(second)
    ensures Rigid(Product(Product(transform, MotionMatrix(first)), MotionMatrix(second)))
  {
    MotionRigid(first);
    ProductRigid(transform, MotionMatrix(first));
    MotionRigid(second);
    ProductRigid(Product(transform, MotionMatrix(first)), MotionMatrix(second));
  }

  /** Drawing in a rigidly placed scene keeps the normal matrix exact. */
  lemma ModelViewInverse(transform: Matrix, x: real, y: real, s: real, c: real)
    requires Rigid(transform) && s * s + c * c == 1.0
    ensures var m := ModelView(transform, x, y, s, c); Rigid(m) && TwoSidedInverse(m, Inverse(m))
  {
    MovedRigid(transform, Motion.Translate(x, y, 0.0), Motion.Rotate(s, c, 0.0, 0.0, 1.0));
    RigidInverse(ModelView(transform, x, y, s, c));
  }

  lemma RigidInverse(m: Matrix)
    requires Rigid(m)
    ensures TwoSidedInverse(m, Inverse(m))
  {
    InverseIff(m);
  }

  method PlaceGear(transform: Matrix, x: real, y: real, s: real, c: real) returns (model_view: array<real>)
    ensures fresh(model_view) && model_view.Length == 16
    ensures model_view[..] == ModelView(transform, x, y, s, c)
  {
    model_view := new real[16];
    Copy(model_view, transform);
    Translate(model_view, x, y, 0.0);
    Rotate(model_view, s, c, 0.0, 0.0, 1.0);
  }

  /** The matrix normals are turned by: the inverse, transposed. */
  function NormalMatrix(m: Matrix): Matrix {
    Transposed(Inverse(m))
  }

  method MakeNormalMatrix(model_view: Matrix) returns (normal_matrix: array<real>)
    ensures fresh(normal_matrix) && normal_matrix.Length == 16
    ensures normal_matrix[..] == NormalMatrix(model_view)
  {
    normal_matrix := new real[16];
    Copy(normal_matrix, model_view);
    Invert(normal_matrix);
    Transpose(normal_matrix);
  }

  method MakeProjected(projection: Matrix, model_view: array<real>) returns (model_view_projection: array<real>)
    requires model_view.Length == 16
    ensures fresh(model_view_projection) && model_view_projection.Length == 16
    ensures model_view_projection[..] == Product(projection, model_view[..])
  {
    model_view_projection := new real[16];
    Copy(model_view_projection, projection);
    Multiply(model_view_projection, model_view);
  }
}

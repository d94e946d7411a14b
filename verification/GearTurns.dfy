/**
 Where the matrices of clients/es2gears.c take points and directions: rotations by
 Rodrigues' formula, and a gear about its own centre.
 */
module GearTurns {
  import opened Gears

  // ------------------------------------------------------------------ vectors

  function Cross(u: Spatial, v: Spatial): Spatial {
    Spatial(u.y * v.z - u.z * v.y, u.z * v.x - u.x * v.z, u.x * v.y - u.y * v.x)
  }

  function Plus(u: Spatial, v: Spatial): Spatial {
    Spatial(u.x + v.x, u.y + v.y, u.z + v.z)
  }

  function Times(k: real, u: Spatial): Spatial {
    Spatial(k * u.x, k * u.y, k * u.z)
  }

  /** A direction, and a place, as the matrices take them. */
  function Direction(v: Spatial): Vec {
    Vec(v.x, v.y, v.z, 0.0)
  }

  function Place(v: Spatial): Vec {
    Vec(v.x, v.y, v.z, 1.0)
  }

  // ---------------------------------------------------------------- rotations

  /** c v + (1 - c) (n . v) n + s (n x v). */
  function Rodrigues(s: real, c: real, n: Spatial, v: Spatial): Spatial {
    Plus(Plus(Times(c, v), Times((1.0 - c) * Inner(n, v), n)), Times(s, Cross(n, v)))
  }

  lemma RodriguesFields(s: real, c: real, k: real, n: Spatial, v: Spatial, inner: real)
    requires k == 1.0 - c && inner == Inner(n, v)
    ensures var u := Rodrigues(s, c, n, v);
      && u.x == c * v.x + k * inner * n.x + s * (n.y * v.z - n.z * v.y)
      && u.y == c * v.y + k * inner * n.y + s * (n.z * v.x - n.x * v.z)
      && u.z == c * v.z + k * inner * n.z + s * (n.x * v.y - n.y * v.x)
  {
  }

  /** One coordinate of the formula, for the axis (x, y, z) and the vector (a, b, d);
      the others are its cyclic shifts. */
  lemma RodriguesRow(s: real, c: real, k: real, x: real, y: real, z: real, a: real, b: real, d: real, inner: real)
    requires inner == x * a + y * b + z * d
    ensures (x * x * k + c) * a + (x * y * k - z * s) * b + (x * z * k + y * s) * d
      == c * a + k * inner * x + s * (y * d - z * b)
  {
    var p := x * k;
    assert x * x * k == x * p && x * y * k == y * p && x * z * k == z * p;
    assert k * inner * x == p * inner;
    assert p * inner == x * p * a + y * p * b + z * p * d;
    assert (x * p + c) * a == x * p * a + c * a;
    assert (y * p - z * s) * b == y * p * b - s * (z * b);
    assert (z * p + y * s) * d == z * p * d + s * (y * d);
    assert s * (y * d - z * b) == s * (y * d) - s * (z * b);
  }

  /** p, q and t are the entries of the row of the matrix. */
  lemma RowTurns(p: real, q: real, t: real, s: real, c: real, k: real, x: real, y: real, z: real,
                 a: real, b: real, d: real, inner: real)
    requires p == x * x * k + c && q == x * y * k - z * s && t == x * z * k + y * s
    requires inner == x * a + y * b + z * d
    ensures p * a + q * b + t * d == c * a + k * inner * x + s * (y * d - z * b)
  {
    RodriguesRow(s, c, k, x, y, z, a, b, d, inner);
  }

  lemma DotOf(row: Vec, v: Spatial)
    requires row.w == 0.0
    ensures Dot(row, Direction(v)) == row.x * v.x + row.y * v.y + row.z * v.z
  {
  }

  lemma FirstRow(s: real, c: real, x: real, y: real, z: real)
    ensures var r := Row(Rotation(s, c, x, y, z), 0);
      r.x == x * x * (1.0 - c) + c && r.y == x * y * (1.0 - c) - z * s && r.z == x * z * (1.0 - c) + y * s && r.w == 0.0
  {
  }

  lemma SecondRow(s: real, c: real, x: real, y: real, z: real)
    ensures var r := Row(Rotation(s, c, x, y, z), 1);
      r.x == y * x * (1.0 - c) + z * s && r.y == y * y * (1.0 - c) + c && r.z == y * z * (1.0 - c) - x * s && r.w == 0.0
  {
  }

  lemma ThirdRow(s: real, c: real, x: real, y: real, z: real)
    ensures var r := Row(Rotation(s, c, x, y, z), 2);
      r.x == x * z * (1.0 - c) - y * s && r.y == y * z * (1.0 - c) + x * s && r.z == z * z * (1.0 - c) + c && r.w == 0.0
  {
  }

  lemma LastRow(s: real, c: real, x: real, y: real, z: real, v: Spatial)
    ensures Dot(Row(Rotation(s, c, x, y, z), 3), Direction(v)) == 0.0
  {
  }

  /** The three rows, and what they make of a vector. */
  predicate RodriguesRows(p: Vec, q: Vec, r: Vec, s: real, c: real, k: real, n: Spatial) {
    && p.x == n.x * n.x * k + c && p.y == n.x * n.y * k - n.z * s && p.z == n.x * n.z * k + n.y * s && p.w == 0.0
    && q.x == n.y * n.x * k + n.z * s && q.y == n.y * n.y * k + c && q.z == n.y * n.z * k - n.x * s && q.w == 0.0
    && r.x == n.x * n.z * k - n.y * s && r.y == n.y * n.z * k + n.x * s && r.z == n.z * n.z * k + c && r.w == 0.0
  }

  lemma FirstCoordinate(r: Vec, s: real, c: real, k: real, n: Spatial, v: Spatial, inner: real)
    requires r.x == n.x * n.x * k + c && r.y == n.x * n.y * k - n.z * s && r.z == n.x * n.z * k + n.y * s && r.w == 0.0
    requires inner == n.x * v.x + n.y * v.y + n.z * v.z
    ensures Dot(r, Direction(v)) == c * v.x + k * inner * n.x + s * (n.y * v.z - n.z * v.y)
  {
    RowTurns(r.x, r.y, r.z, s, c, k, n.x, n.y, n.z, v.x, v.y, v.z, inner);
    DotOf(r, v);
  }

  lemma SecondCoordinate(r: Vec, s: real, c: real, k: real, n: Spatial, v: Spatial, inner: real)
    requires r.x == n.y * n.x * k + n.z * s && r.y == n.y * n.y * k + c && r.z == n.y * n.z * k - n.x * s && r.w == 0.0
    requires inner == n.x * v.x + n.y * v.y + n.z * v.z
    ensures Dot(r, Direction(v)) == c * v.y + k * inner * n.y + s * (n.z * v.x - n.x * v.z)
  {
    RowTurns(r.y, r.z, r.x, s, c, k, n.y, n.z, n.x, v.y, v.z, v.x, inner);
    DotOf(r, v);
  }

  lemma ThirdCoordinate(r: Vec, s: real, c: real, k: real, n: Spatial, v: Spatial, inner: real)
    requires r.x == n.x * n.z * k - n.y * s && r.y == n.y * n.z * k + n.x * s && r.z == n.z * n.z * k + c && r.w == 0.0
    requires inner == n.x * v.x + n.y * v.y + n.z * v.z
    ensures Dot(r, Direction(v)) == c * v.z + k * inner * n.z + s * (n.x * v.y - n.y * v.x)
  {
    RowTurns(r.z, r.x, r.y, s, c, k, n.z, n.x, n.y, v.z, v.x, v.y, inner);
    DotOf(r, v);
  }

  lemma Coordinates(p: Vec, q: Vec, r: Vec, s: real, c: real, k: real, n: Spatial, v: Spatial, inner: real)
    requires RodriguesRows(p, q, r, s, c, k, n) && inner == Inner(n, v) && k == 1.0 - c
    ensures Spatial(Dot(p, Direction(v)), Dot(q, Direction(v)), Dot(r, Direction(v))) == Rodrigues(s, c, n, v)
  {
    FirstCoordinate(p, s, c, k, n, v, inner);
    SecondCoordinate(q, s, c, k, n, v, inner);
    ThirdCoordinate(r, s, c, k, n, v, inner);
    RodriguesFields(s, c, k, n, v, inner);
  }

  lemma RotationRows(s: real, c: real, n: Spatial)
    ensures var m := Rotation(s, c, n.x, n.y, n.z);
      RodriguesRows(Row(m, 0), Row(m, 1), Row(m, 2), s, c, 1.0 - c, n)
  {
    FirstRow(s, c, n.x, n.y, n.z);
    SecondRow(s, c, n.x, n.y, n.z);
    ThirdRow(s, c, n.x, n.y, n.z);
  }

  lemma ByCoordinates(m: Matrix, v: Vec, r: Spatial)
    requires Dot(Row(m, 0), v) == r.x && Dot(Row(m, 1), v) == r.y && Dot(Row(m, 2), v) == r.z
    requires Dot(Row(m, 3), v) == 0.0
    ensures Combine(m, v) == Direction(r)
  {
  }

  /** What a rotation does to a vector, for any axis, sine and cosine. */
  lemma RotationIsRodrigues(s: real, c: real, n: Spatial, v: Spatial)
    ensures Combine(Rotation(s, c, n.x, n.y, n.z), Direction(v)) == Direction(Rodrigues(s, c, n, v))
  {
    var m := Rotation(s, c, n.x, n.y, n.z);
    RotationRows(s, c, n);
    Coordinates(Row(m, 0), Row(m, 1), Row(m, 2), s, c, 1.0 - c, n, v, Inner(n, v));
    LastRow(s, c, n.x, n.y, n.z, v);
    ByCoordinates(m, Direction(v), Rodrigues(s, c, n, v));
  }

  /** About a unit axis the axis itself stays ... */
  lemma AxisStays(s: real, c: real, n: Spatial)
    requires Inner(n, n) == 1.0
    ensures Combine(Rotation(s, c, n.x, n.y, n.z), Direction(n)) == Direction(n)
  {
    RotationIsRodrigues(s, c, n, n);
  }

  /** ... and what is at right angles to it turns towards the third direction. */
  lemma PerpendicularTurns(s: real, c: real, n: Spatial, v: Spatial)
    requires Inner(n, v) == 0.0
    ensures Combine(Rotation(s, c, n.x, n.y, n.z), Direction(v))
      == Direction(Plus(Times(c, v), Times(s, Cross(n, v))))
  {
    RotationIsRodrigues(s, c, n, v);
  }

  // ------------------------------------------------------------------- places

  /** A product does what its factors do, the right one first. */
  lemma CombineProduct(m: Matrix, n: Matrix, v: Vec)
    ensures Combine(Product(m, n), v) == Combine(m, Combine(n, v))
  {
    forall r: nat | r < 4 ensures Dot(Row(Product(m, n), r), v) == Dot(Row(m, r), Combine(n, v)) {
      ProductRow(m, n, r);
      DotAssociates(Row(m, r), n, v);
    }
  }

  lemma TranslationMoves(x: real, y: real, z: real, p: Spatial)
    ensures Combine(Translation(x, y, z), Place(p)) == Place(Plus(p, Spatial(x, y, z)))
    ensures Combine(Translation(x, y, z), Direction(p)) == Direction(p)
  {
  }

  /** A point of a gear turned by an angle about the gear's axis. */
  function Spun(s: real, c: real, p: Spatial): Spatial {
    Spatial(c * p.x - s * p.y, s * p.x + c * p.y, p.z)
  }

  lemma RotationSpins(s: real, c: real, p: Spatial)
    ensures Combine(Rotation(s, c, 0.0, 0.0, 1.0), Place(p)) == Place(Spun(s, c, p))
  {
  }

  /** A gear turns about its own centre, and the centre is moved to its place. */
  lemma GearSpinsInPlace(transform: Matrix, x: real, y: real, s: real, c: real, p: Spatial)
    ensures Combine(ModelView(transform, x, y, s, c), Place(p))
      == Combine(transform, Place(Plus(Spun(s, c, p), Spatial(x, y, 0.0))))
  {
    CombineProduct(Product(transform, Translation(x, y, 0.0)), Rotation(s, c, 0.0, 0.0, 1.0), Place(p));
    RotationSpins(s, c, p);
    CombineProduct(transform, Translation(x, y, 0.0), Place(Spun(s, c, p)));
    TranslationMoves(x, y, 0.0, Spun(s, c, p));
  }

  /** Whatever the angle, the centre of the gear is where it was put. */
  lemma CentreStays(transform: Matrix, x: real, y: real, s: real, c: real)
    ensures Combine(ModelView(transform, x, y, s, c), Vec(0.0, 0.0, 0.0, 1.0))
      == Combine(transform, Vec(x, y, 0.0, 1.0))
  {
    var o := Spatial(0.0, 0.0, 0.0);
    CentreSpun(s, c, x, y);
    GearSpinsInPlace(transform, x, y, s, c, o);
  }

  lemma CentreSpun(s: real, c: real, x: real, y: real)
    ensures Place(Plus(Spun(s, c, Spatial(0.0, 0.0, 0.0)), Spatial(x, y, 0.0))) == Vec(x, y, 0.0, 1.0)
  {
  }

  // ------------------------------------------------------------------ drawing

  /** Where a point of a gear is shown. */
  function Shown(projection: Matrix, transform: Matrix, x: real, y: real, s: real, c: real, p: Spatial): Vec {
    Combine(projection, Combine(transform, Place(Plus(Spun(s, c, p), Spatial(x, y, 0.0)))))
  }

  lemma ProjectedShows(projection: Matrix, transform: Matrix, x: real, y: real, s: real, c: real, p: Spatial)
    ensures Combine(Product(projection, ModelView(transform, x, y, s, c)), Place(p))
      == Shown(projection, transform, x, y, s, c, p)
  {
    CombineProduct(projection, ModelView(transform, x, y, s, c), Place(p));
    GearSpinsInPlace(transform, x, y, s, c, p);
  }

  /** The matrices draw_gear hands to the shader: one shows every point of the gear spun,
      put in its place, seen and projected, the other turns its normals. */
  method DrawGear(projection: Matrix, transform: Matrix, x: real, y: real, s: real, c: real)
      returns (model_view_projection: array<real>, normal_matrix: array<real>)
    ensures model_view_projection.Length == 16 && normal_matrix.Length == 16
    ensures forall p: Spatial ::
      Combine(model_view_projection[..], Place(p)) == Shown(projection, transform, x, y, s, c, p)
    ensures normal_matrix[..] == NormalMatrix(ModelView(transform, x, y, s, c))
  {
    var model_view := PlaceGear(transform, x, y, s, c);
    model_view_projection := MakeProjected(projection, model_view);
    normal_matrix := MakeNormalMatrix(model_view[..]);
    forall p: Spatial
      ensures Combine(model_view_projection[..], Place(p)) == Shown(projection, transform, x, y, s, c, p)
    {
      ProjectedShows(projection, transform, x, y, s, c, p);
    }
  }
}

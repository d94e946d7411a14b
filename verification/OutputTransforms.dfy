/**
 The eight output transforms of clients/simple-damage.c: each next one, up to the third
 of a half, is a quarter turn more, and the second half is the first one mirrored.
 */
module OutputTransforms {
  import opened RowMajor
  import opened SimpleDamage

  // ------------------------------------------------------------------ points

  /** Where a quarter turn takes a point of a box of the given height. */
  function Turned(height: real, p: (real, real)): (real, real) {
    (height - p.1, p.0)
  }

  lemma UprightPoint(w: real, h: real, x: real, y: real)
    ensures TransformedPoint(0, w, h, x, y) == (x, y)
  {
  }

  lemma NextTurnsPoint(t: Transform, w: real, h: real, x: real, y: real)
    requires t % 4 < 3
    ensures TransformedPoint(t + 1, w, h, x, y)
      == Turned(if Sideways(t) then w else h, TransformedPoint(t, w, h, x, y))
  {
    assert t in {0, 1, 2, 4, 5, 6};
  }

  lemma FlippedMirrorsPoint(t: Transform, w: real, h: real, x: real, y: real)
    requires t < 4
    ensures TransformedPoint(t + 4, w, h, x, y) == TransformedPoint(t, w, h, w - x, y)
  {
  }

  // --------------------------------------------------------- the drawn region

  /** Where a quarter turn of a box takes a rectangle: its lower left corner becomes the
      upper left one. */
  function TurnedRect(boxHeight: int, height: int, p: (int, int)): (int, int) {
    (boxHeight - (p.1 + height), p.0)
  }

  lemma UprightOffset(w: nat, h: nat, tx: nat, ty: nat)
    ensures Offset(0, w, h, tx, ty) == (tx, ty)
  {
  }

  /** The region is half as wide and high as its box. */
  lemma NextTurnsOffset(t: Transform, w: nat, h: nat, tx: nat, ty: nat)
    requires t % 4 < 3
    ensures Offset(t + 1, h, w, tx, ty) == TurnedRect(2 * h, h, Offset(t, w, h, tx, ty))
  {
    assert t in {0, 1, 2, 4, 5, 6};
  }

  /** The mirror image of a region tx from the left of a box twice its width. */
  lemma FlippedMirrorsOffset(t: Transform, w: nat, h: nat, tx: nat, ty: nat)
    requires t < 4 && tx <= if Sideways(t) then h else w
    ensures var across := if Sideways(t) then h else w;
      Offset(t + 4, w, h, tx, ty) == Offset(t, w, h, 2 * across - (tx + across), ty)
  {
  }

  // ------------------------------------------------------- the disc in the buffer

  /** Sizes that the halving for a viewport divides. */
  predicate Halves(s: Setup) {
    s.viewport ==> s.width * s.scale % 2 == 0 && s.height * s.scale % 2 == 0
  }

  lemma CoordinateLinear(n: nat, v: real, scale: nat, viewport: bool)
    requires viewport ==> n * scale % 2 == 0
    ensures Coordinate(n as real - v, scale, viewport)
      == Extent(n, scale, viewport) as real - Coordinate(v, scale, viewport)
    ensures n * scale == if viewport then 2 * Extent(n, scale, viewport) else Extent(n, scale, viewport)
  {
    var r := scale as real;
    assert (n as real - v) * r == n as real * r - v * r;
    assert (n * scale) as real == n as real * r;
  }

  lemma UprightCentre(s: Setup, x: real, y: real, tx: nat, ty: nat)
    requires tx == (s.width / 3) * s.scale && ty == (s.height / 5) * s.scale
    ensures DiscCentre(s, 0, x, y) ==
      ((if s.viewport then tx else 0) as real + Coordinate(x, s.scale, s.viewport),
       (if s.viewport then ty else 0) as real + Coordinate(y, s.scale, s.viewport))
  {
    UprightRegion(s, tx, ty);
    UprightPoint(s.width as real, s.height as real, x, y);
  }

  lemma UprightRegion(s: Setup, tx: nat, ty: nat)
    requires tx == (s.width / 3) * s.scale && ty == (s.height / 5) * s.scale
    ensures var r := DrawnRegion(s, 0);
      r.offX == (if s.viewport then tx else 0) && r.offY == (if s.viewport then ty else 0)
  {
    UprightOffset(Extent(s.width, s.scale, true), Extent(s.height, s.scale, true), tx, ty);
  }

  /** The height of the box a region is drawn in. */
  function BoxHeight(s: Setup, t: Transform): nat {
    if s.viewport then 2 * DrawnRegion(s, t).height else DrawnRegion(s, t).height
  }

  lemma NextTurnsRegion(s: Setup, t: Transform)
    requires t % 4 < 3
    ensures var r, r' := DrawnRegion(s, t), DrawnRegion(s, t + 1);
      && (r'.offX, r'.offY) == TurnedRect(BoxHeight(s, t), r.height, (r.offX, r.offY))
      && r'.width == r.height && r'.height == r.width
  {
    var (w, h) := if Sideways(t) then (s.height, s.width) else (s.width, s.height);
    NextTurnsOffset(t, Extent(w, s.scale, true), Extent(h, s.scale, true),
                    (s.width / 3) * s.scale, (s.height / 5) * s.scale);
  }

  lemma NextTurnsBall(s: Setup, t: Transform, x: real, y: real)
    requires t % 4 < 3 && Halves(s)
    ensures TransformedBall(s, t + 1, x, y) == Turned(DrawnRegion(s, t).height as real, TransformedBall(s, t, x, y))
  {
    var h := if Sideways(t) then s.width else s.height;
    NextTurnsPoint(t, s.width as real, s.height as real, x, y);
    CoordinateLinear(h, TransformedPoint(t, s.width as real, s.height as real, x, y).1, s.scale, s.viewport);
  }

  lemma BoxIsBuffer(s: Setup, t: Transform)
    requires Halves(s)
    ensures BoxHeight(s, t) == BufferHeight(s, t)
  {
    CoordinateLinear(if Sideways(t) then s.width else s.height, 0.0, s.scale, s.viewport);
  }

  /** The disc of the next transform is the disc turned with the buffer. */
  lemma NextTurnsCentre(s: Setup, t: Transform, x: real, y: real)
    requires t % 4 < 3 && Halves(s)
    ensures DiscCentre(s, t + 1, x, y) == Turned(BufferHeight(s, t) as real, DiscCentre(s, t, x, y))
  {
    NextTurnsRegion(s, t);
    NextTurnsBall(s, t, x, y);
    BoxIsBuffer(s, t);
    CentreTurns(DrawnRegion(s, t), DrawnRegion(s, t + 1), BoxHeight(s, t),
                TransformedBall(s, t, x, y), TransformedBall(s, t + 1, x, y));
  }

  lemma CentreTurns(r: Region, r': Region, boxHeight: nat, b: (real, real), b': (real, real))
    requires (r'.offX, r'.offY) == TurnedRect(boxHeight, r.height, (r.offX, r.offY))
    requires b' == Turned(r.height as real, b)
    ensures (r'.offX as real + b'.0, r'.offY as real + b'.1)
      == Turned(boxHeight as real, (r.offX as real + b.0, r.offY as real + b.1))
  {
  }

  /** Mirroring the upright disc with the buffer gives the flipped one. */
  lemma FlippedMirrorsCentre(s: Setup, x: real, y: real)
    requires Halves(s)
    ensures DiscCentre(s, 4, x, y)
      == (BufferWidth(s, 0) as real - DiscCentre(s, 0, x, y).0, DiscCentre(s, 0, x, y).1)
  {
    CoordinateLinear(s.width, x, s.scale, s.viewport);
  }

  // ----------------------------------------------------------- rotating the damage

  /** A rotation for the next frame is a half turn of the buffer, or a mirroring
      where it leads from one half of the transforms into the other. */
  lemma RotatedTurns(t: Transform, w: real, h: real, x: real, y: real)
    ensures var (bw, bh) := if Sideways(t) then (h, w) else (w, h);
      var p := TransformedPoint(t, w, h, x, y);
      TransformedPoint(Rotated(t), w, h, x, y) ==
        if t % 4 < 2 then (bw - p.0, bh - p.1)
        else if Sideways(t) then (bw - p.0, p.1)
        else (p.0, bh - p.1)
  {
    assert t in {0, 1, 2, 3, 4, 5, 6, 7};
  }

  /** Four rotations lead through all transforms of one parity and back. */
  lemma RotationCycles(t: Transform)
    ensures Rotated(Rotated(Rotated(Rotated(t)))) == t
    ensures Rotated(t) != t && Rotated(Rotated(t)) != t && Rotated(Rotated(Rotated(t))) != t
  {
    assert t in {0, 1, 2, 3, 4, 5, 6, 7};
  }

  // ----------------------------------------------------- damage in surface coordinates

  /** How much larger things are drawn than they are on the surface. */
  function Enlargement(s: Setup): real {
    if s.viewport then s.scale as real / 2.0 else s.scale as real
  }

  lemma CoordinatesApart(a: real, b: real, s: Setup)
    ensures Coordinate(a, s.scale, s.viewport) - Coordinate(b, s.scale, s.viewport) == Enlargement(s) * (a - b)
  {
    var r := s.scale as real;
    assert a * r - b * r == r * (a - b);
  }

  lemma RadiusEnlarged(s: Setup, t: Transform)
    ensures DrawnRegion(s, t).radius as real == Enlargement(s) * RADIUS as real
  {
  }

  lemma ScaledWithin(k: real, d: real, e: real, a: real, b: real, r: real)
    requires k > 0.0 && r >= 0.0 && d == k * a && e == k * b
    requires d * d + e * e <= (k * r) * (k * r)
    ensures -r <= a <= r
  {
    assert k * r >= 0.0;
    SquareBound(d, e, k * r);
    Shrunk(k, a, r);
  }

  lemma Shrunk(k: real, a: real, r: real)
    requires k > 0.0 && -(k * r) <= k * a <= k * r
    ensures -r <= a <= r
  {
    assert k * (r - a) == k * r - k * a && k * (a + r) == k * a + k * r;
    NotNegative(k, r - a);
    NotNegative(k, a + r);
  }

  lemma NotNegative(k: real, p: real)
    requires k > 0.0 && k * p >= 0.0
    ensures p >= 0.0
  {
  }

  lemma DiscNear(cx: real, cy: real, radius: nat, i: int, j: int, k: real, a: real, b: real)
    requires DiscTest(cx, cy, radius, i, j) && k > 0.0 && radius as real == k * RADIUS as real
    requires i as real + 0.5 - cx == k * a && j as real + 0.5 - cy == k * b
    ensures -(RADIUS as real) <= a <= RADIUS as real && -(RADIUS as real) <= b <= RADIUS as real
  {
    var d, e := i as real + 0.5 - cx, j as real + 0.5 - cy;
    ScaledWithin(k, d, e, a, b, RADIUS as real);
    ScaledWithin(k, e, d, b, a, RADIUS as real);
  }

  /** Two points of the surface are as far apart, along two sides, as their images. */
  lemma PointsApart(t: Transform, w: real, h: real, x: real, y: real, x': real, y': real, r: real)
    requires var p, q := TransformedPoint(t, w, h, x, y), TransformedPoint(t, w, h, x', y');
      -r <= p.0 - q.0 <= r && -r <= p.1 - q.1 <= r
    ensures -r <= x - x' <= r && -r <= y - y' <= r
  {
    assert t in {0, 1, 2, 3, 4, 5, 6, 7};
  }

  lemma BallApart(s: Setup, t: Transform, x: real, y: real, px: real, py: real, a: real, b: real)
    requires var p := TransformedPoint(t, s.width as real, s.height as real, px, py);
      var q := TransformedPoint(t, s.width as real, s.height as real, x, y);
      a == p.0 - q.0 && b == p.1 - q.1
    ensures TransformedBall(s, t, px, py).0 - TransformedBall(s, t, x, y).0 == Enlargement(s) * a
    ensures TransformedBall(s, t, px, py).1 - TransformedBall(s, t, x, y).1 == Enlargement(s) * b
  {
    var p := TransformedPoint(t, s.width as real, s.height as real, px, py);
    var q := TransformedPoint(t, s.width as real, s.height as real, x, y);
    CoordinatesApart(p.0, q.0, s);
    CoordinatesApart(p.1, q.1, s);
  }

  lemma CentreApart(s: Setup, t: Transform, x: real, y: real, px: real, py: real)
    ensures var b, c := TransformedBall(s, t, px, py), TransformedBall(s, t, x, y);
      && DiscCentre(s, t, px, py).0 - DiscCentre(s, t, x, y).0 == b.0 - c.0
      && DiscCentre(s, t, px, py).1 - DiscCentre(s, t, x, y).1 == b.1 - c.1
  {
  }

  lemma SurfaceRectHolds(s: Setup, t: Transform, x: real, y: real, px: real, py: real)
    requires !s.damageBuffer
    requires Close(px - x, py - y)
    ensures BallDamage(s, t, x, y).Contains(px.Floor, py.Floor)
  {
  }

  /** A pixel of the ball, and the point of the surface that is drawn at its centre. */
  predicate BallPixel(s: Setup, t: Transform, x: real, y: real, i: int, j: int, px: real, py: real) {
    var c := DiscCentre(s, t, x, y);
    DiscTest(c.0, c.1, DrawnRegion(s, t).radius, i, j) && DiscCentre(s, t, px, py) == (i as real + 0.5, j as real + 0.5)
  }

  lemma BallPixelNear(s: Setup, t: Transform, x: real, y: real, i: int, j: int, px: real, py: real, a: real, b: real)
    requires s.scale >= 1 && BallPixel(s, t, x, y, i, j, px, py)
    requires TransformedBall(s, t, px, py).0 - TransformedBall(s, t, x, y).0 == Enlargement(s) * a
    requires TransformedBall(s, t, px, py).1 - TransformedBall(s, t, x, y).1 == Enlargement(s) * b
    ensures Close(a, b)
  {
    RadiusEnlarged(s, t);
    CentreApart(s, t, x, y, px, py);
    var c := DiscCentre(s, t, x, y);
    DiscNear(c.0, c.1, DrawnRegion(s, t).radius, i, j, Enlargement(s), a, b);
  }

  predicate Close(a: real, b: real) {
    -(RADIUS as real) <= a <= RADIUS as real && -(RADIUS as real) <= b <= RADIUS as real
  }

  lemma CloseBack(t: Transform, w: real, h: real, x: real, y: real, px: real, py: real, a: real, b: real)
    requires var p, q := TransformedPoint(t, w, h, px, py), TransformedPoint(t, w, h, x, y);
      a == p.0 - q.0 && b == p.1 - q.1
    requires Close(a, b)
    ensures Close(px - x, py - y)
  {
    PointsApart(t, w, h, px, py, x, y, RADIUS as real);
  }

  lemma BallPointNear(s: Setup, t: Transform, x: real, y: real, i: int, j: int, px: real, py: real, a: real, b: real)
    requires s.scale >= 1 && BallPixel(s, t, x, y, i, j, px, py)
    requires var p := TransformedPoint(t, s.width as real, s.height as real, px, py);
      var q := TransformedPoint(t, s.width as real, s.height as real, x, y);
      a == p.0 - q.0 && b == p.1 - q.1
    ensures Close(a, b)
  {
    BallApart(s, t, x, y, px, py, a, b);
    BallPixelNear(s, t, x, y, i, j, px, py, a, b);
  }

  /** Under every transform, with or without a viewport, the rectangle posted in surface
      coordinates holds every point of the surface that is drawn at the centre of a pixel
      of the ball. */
  lemma SurfaceDamageCovers(s: Setup, t: Transform, x: real, y: real, i: int, j: int, px: real, py: real)
    requires s.scale >= 1 && !s.damageBuffer && BallPixel(s, t, x, y, i, j, px, py)
    ensures BallDamage(s, t, x, y).Contains(px.Floor, py.Floor)
  {
    var p := TransformedPoint(t, s.width as real, s.height as real, px, py);
    var q := TransformedPoint(t, s.width as real, s.height as real, x, y);
    BallPointNear(s, t, x, y, i, j, px, py, p.0 - q.0, p.1 - q.1);
    CloseBack(t, s.width as real, s.height as real, x, y, px, py, p.0 - q.0, p.1 - q.1);
    SurfaceRectHolds(s, t, x, y, px, py);
  }
}

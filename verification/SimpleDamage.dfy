/**
 A ball bouncing in a window, drawn into one of two buffers under any output
 transform, with the damage posted for it (clients/simple-damage.c).
 */
module SimpleDamage {
  import opened RowMajor
  import opened Reflection

  type Pixel = int
  type Image = seq<Pixel>

  // ------------------------------------------------------------------ painting

  predicate InBox(pitch: nat, x: int, y: int, width: int, height: int, k: nat)
    requires pitch > 0
  {
    x <= k % pitch < x + width && y <= k / pitch < y + height
  }

  ghost function BoxPainted(g: Image, pitch: nat, x: int, y: int, width: int, height: int, color: Pixel): Image
    requires pitch > 0
  {
    seq(|g|, k requires 0 <= k < |g| => if InBox(pitch, x, y, width, height, k) then color else g[k])
  }

  lemma BoxGap(pitch: nat, x: nat, y: nat, width: nat, height: nat, j: nat, k: nat)
    requires pitch > 0 && x + width <= pitch
    requires j * pitch + x + width <= k < (j + 1) * pitch + x
    ensures !InBox(pitch, x, y, width, height, k)
  {
    RowGap(pitch, j, x, x + width, k);
  }

  lemma BoxOutside(pitch: nat, x: nat, y: nat, width: int, height: int, k: nat)
    requires pitch > 0 && x < pitch && (k < y * pitch + x || (y + height) * pitch <= k)
    ensures !InBox(pitch, x, y, width, height, k)
  {
    var i, j := k % pitch, k / pitch;
    assert k == j * pitch + i;
    if y <= j < y + height {
      MulMonotonic(pitch, y, j);
      MulMonotonic(pitch, j + 1, y + height);
    }
  }

  method PaintBoxRow(pixels: array<Pixel>, pitch: nat, x: nat, y: nat, width: nat, height: nat, color: Pixel, j: nat,
                     ghost g0: Image)
    requires pitch > 0 && x + width <= pitch && y <= j < y + height && (y + height) * pitch <= pixels.Length
    requires Merged(BoxPainted(g0, pitch, x, y, width, height, color), g0, pixels[..], j * pitch + x)
    modifies pixels
    ensures Merged(BoxPainted(g0, pitch, x, y, width, height, color), g0, pixels[..], (j + 1) * pitch + x)
  {
    ghost var target := BoxPainted(g0, pitch, x, y, width, height, color);
    var l := j * pitch;
    for i := x to x + width
      invariant Merged(target, g0, pixels[..], l + i)
    {
      CellIndex(pitch, y + height, i, j);
      pixels[i + l] := color;
    }
    forall k | l + x + width <= k < (j + 1) * pitch + x && 0 <= k < |g0| ensures target[k] == g0[k] {
      BoxGap(pitch, x, y, width, height, j, k);
    }
    assert (j + 1) * pitch == l + pitch;
    MergeSkip(target, g0, pixels[..], l + x + width, (j + 1) * pitch + x);
  }

  /** Fills a rectangle; a width or height below one paints nothing. */
  method PaintBox(pixels: array<Pixel>, pitch: nat, x: nat, y: nat, width: nat, height: nat, color: Pixel)
    requires pitch > 0 && x + width <= pitch && x < pitch && (y + height) * pitch <= pixels.Length
    modifies pixels
    ensures pixels[..] == BoxPainted(old(pixels[..]), pitch, x, y, width, height, color)
  {
    ghost var g0 := pixels[..];
    ghost var target := BoxPainted(g0, pitch, x, y, width, height, color);
    forall k | 0 <= k < |g0| && (k < y * pitch + x || (y + height) * pitch <= k) ensures target[k] == g0[k] {
      BoxOutside(pitch, x, y, width, height, k);
    }
    for j := y to y + height
      invariant Merged(target, g0, pixels[..], j * pitch + x)
    {
      PaintBoxRow(pixels, pitch, x, y, width, height, color, j, g0);
    }
    MulMonotonic(pitch, y, y + height);
    assert forall k | 0 <= k < |g0| :: pixels[k] == target[k];
  }

  /** The centre of pixel k lies within the circle. */
  ghost predicate InDisc(pitch: nat, cx: real, cy: real, radius: nat, k: nat)
    requires pitch > 0
  {
    DiscTest(cx, cy, radius, k % pitch, k / pitch)
  }

  predicate DiscTest(cx: real, cy: real, radius: nat, i: int, j: int) {
    (j as real + 0.5 - cy) * (j as real + 0.5 - cy) + (i as real + 0.5 - cx) * (i as real + 0.5 - cx)
      <= radius as real * radius as real
  }

  ghost function DiscPainted(g: Image, pitch: nat, cx: real, cy: real, radius: nat, color: Pixel): Image
    requires pitch > 0
  {
    seq(|g|, k requires 0 <= k < |g| => if InDisc(pitch, cx, cy, radius, k) then color else g[k])
  }

  lemma SquareBound(d: real, e: real, r: real)
    requires r >= 0.0 && d * d + e * e <= r * r
    ensures -r <= d <= r
  {
    assert e * e >= 0.0;
    if d > r {
      SquareGrows(d, r);
    } else if d < -r {
      SquareGrows(-d, r);
    }
  }

  lemma SquareGrows(d: real, r: real)
    requires d > r >= 0.0
    ensures d * d > r * r
  {
    var m := d - r;
    assert m * m > 0.0 && m * r >= 0.0;
    assert d * d == r * r + 2.0 * (m * r) + m * m;
  }

  /** The loop bounds of the painting code miss no pixel of the disc. */
  lemma DiscInRange(cx: real, cy: real, radius: nat, i: int, j: int)
    requires DiscTest(cx, cy, radius, i, j)
    ensures (cx - radius as real).Floor <= i <= (cx + radius as real).Floor
    ensures (cy - radius as real).Floor <= j <= (cy + radius as real).Floor
  {
    var d, e := j as real + 0.5 - cy, i as real + 0.5 - cx;
    SquareBound(d, e, radius as real);
    SquareBound(e, d, radius as real);
  }

  /** The pixels between the disc's columns of one row and those of the next. */
  lemma DiscGap(pitch: nat, cx: real, cy: real, radius: nat, j: nat, k: nat)
    requires pitch > 0 && 0.0 <= cx - radius as real && cx + radius as real < pitch as real
    requires j * pitch + (cx + radius as real).Floor + 1 <= k < (j + 1) * pitch + (cx - radius as real).Floor
    ensures !InDisc(pitch, cx, cy, radius, k)
  {
    RowGap(pitch, j, (cx - radius as real).Floor, (cx + radius as real).Floor + 1, k);
    if InDisc(pitch, cx, cy, radius, k) {
      DiscInRange(cx, cy, radius, k % pitch, k / pitch);
    }
  }

  method PaintCircleRow(pixels: array<Pixel>, pitch: nat, cx: real, cy: real, radius: nat, color: Pixel, j: nat,
                        ghost g0: Image)
    requires pitch > 0 && 0.0 <= cx - radius as real && cx + radius as real < pitch as real
    requires (j + 1) * pitch <= pixels.Length
    requires Merged(DiscPainted(g0, pitch, cx, cy, radius, color), g0,
      pixels[..], j * pitch + (cx - radius as real).Floor)
    modifies pixels
    ensures Merged(DiscPainted(g0, pitch, cx, cy, radius, color), g0,
      pixels[..], (j + 1) * pitch + (cx - radius as real).Floor)
  {
    ghost var target := DiscPainted(g0, pitch, cx, cy, radius, color);
    var i0, i1 := (cx - radius as real).Floor, (cx + radius as real).Floor;
    var l, i := j * pitch, i0;
    while i <= i1
      invariant i0 <= i <= i1 + 1
      invariant Merged(target, g0, pixels[..], l + i)
    {
      CellIndex(pitch, j + 1, i, j);
      if DiscTest(cx, cy, radius, i, j) {
        pixels[i + l] := color;
      }
      i := i + 1;
    }
    DiscRowDone(pixels[..], pitch, cx, cy, radius, color, j, g0);
  }

  lemma DiscRowDone(g: Image, pitch: nat, cx: real, cy: real, radius: nat, color: Pixel, j: nat, g0: Image)
    requires pitch > 0 && 0.0 <= cx - radius as real && cx + radius as real < pitch as real
    requires Merged(DiscPainted(g0, pitch, cx, cy, radius, color), g0, g, j * pitch + (cx + radius as real).Floor + 1)
    ensures Merged(DiscPainted(g0, pitch, cx, cy, radius, color), g0, g, (j + 1) * pitch + (cx - radius as real).Floor)
  {
    var target := DiscPainted(g0, pitch, cx, cy, radius, color);
    var from, to := j * pitch + (cx + radius as real).Floor + 1, (j + 1) * pitch + (cx - radius as real).Floor;
    assert (j + 1) * pitch == j * pitch + pitch;
    forall k | from <= k < to && 0 <= k < |g0| ensures target[k] == g0[k] {
      DiscGap(pitch, cx, cy, radius, j, k);
    }
    MergeSkip(target, g0, g, from, to);
  }

  method PaintCircle(pixels: array<Pixel>, pitch: nat, cx: real, cy: real, radius: nat, color: Pixel)
    requires pitch > 0 && 0.0 <= cx - radius as real && cx + radius as real < pitch as real
    requires 0.0 <= cy - radius as real && ((cy + radius as real).Floor + 1) * pitch <= pixels.Length
    modifies pixels
    ensures pixels[..] == DiscPainted(old(pixels[..]), pitch, cx, cy, radius, color)
  {
    ghost var g0 := pixels[..];
    ghost var target := DiscPainted(g0, pitch, cx, cy, radius, color);
    var i0, j0, j1 := (cx - radius as real).Floor, (cy - radius as real).Floor, (cy + radius as real).Floor;
    forall k | 0 <= k < |g0| && (k < j0 * pitch + i0 || (j1 + 1) * pitch <= k) ensures target[k] == g0[k] {
      DiscOutside(pitch, cx, cy, radius, k);
    }
    var j := j0;
    while j <= j1
      invariant j0 <= j <= j1 + 1
      invariant Merged(target, g0, pixels[..], j * pitch + i0)
    {
      MulMonotonic(pitch, j + 1, j1 + 1);
      PaintCircleRow(pixels, pitch, cx, cy, radius, color, j, g0);
      j := j + 1;
    }
    assert forall k | 0 <= k < |g0| :: pixels[k] == target[k];
  }

  lemma Behind(pitch: nat, row: nat, column: nat, k: nat)
    requires pitch > 0 && row <= k / pitch && column <= k % pitch
    ensures row * pitch + column <= k
  {
    MulMonotonic(pitch, row, k / pitch);
    assert k == k / pitch * pitch + k % pitch;
  }

  lemma InRows(pitch: nat, row: nat, k: nat)
    requires pitch > 0 && k / pitch <= row
    ensures k < (row + 1) * pitch
  {
    MulMonotonic(pitch, k / pitch + 1, row + 1);
    assert k == k / pitch * pitch + k % pitch && (k / pitch + 1) * pitch == k / pitch * pitch + pitch;
  }

  lemma DiscOutside(pitch: nat, cx: real, cy: real, radius: nat, k: nat)
    requires pitch > 0 && 0.0 <= cx - radius as real && 0.0 <= cy - radius as real
    requires k < (cy - radius as real).Floor * pitch + (cx - radius as real).Floor
          || ((cy + radius as real).Floor + 1) * pitch <= k
    ensures !InDisc(pitch, cx, cy, radius, k)
  {
    var i, j := k % pitch, k / pitch;
    if DiscTest(cx, cy, radius, i, j) {
      DiscInRange(cx, cy, radius, i, j);
      Behind(pitch, (cy - radius as real).Floor, (cx - radius as real).Floor, k);
      InRows(pitch, (cy + radius as real).Floor, k);
    }
  }

  // ------------------------------------------------------------------ geometry

  const BORDER := 10
  const RADIUS := 10

  /** Command-line choices; a window this small has no arena, see TerminatesIff. */
  datatype Setup = Setup(width: nat, height: nat, scale: nat, viewport: bool, rotating: bool, damageBuffer: bool) {
    predicate Valid() {
      2 * (BORDER + RADIUS) < width && 2 * (BORDER + RADIUS) < height && scale >= 1
    }
  }

  /** Output transforms in protocol order: normal, 90, 180, 270, then flipped. */
  type Transform = t: nat | t < 8

  function Rotated(t: Transform): Transform {
    (t + 2) % 8
  }

  predicate Sideways(t: Transform) {
    t % 2 == 1
  }

  function BufferWidth(s: Setup, t: Transform): nat {
    if Sideways(t) then s.height * s.scale else s.width * s.scale
  }

  function BufferHeight(s: Setup, t: Transform): nat {
    if Sideways(t) then s.width * s.scale else s.height * s.scale
  }

  /** Rotating the damage keeps the dimensions of the buffers. */
  lemma RotationKeepsDimensions(s: Setup, t: Transform)
    ensures BufferWidth(s, Rotated(t)) == BufferWidth(s, t) && BufferHeight(s, Rotated(t)) == BufferHeight(s, t)
  {
    assert ((t + 2) % 8) % 2 == t % 2;
  }

  /** The drawn region of a buffer; with a viewport it is half the buffer's size. */
  datatype Region = Region(offX: int, offY: int, width: nat, height: nat, border: nat, radius: nat)

  function DrawnRegion(s: Setup, t: Transform): Region {
    var (w, h) := if Sideways(t) then (s.height, s.width) else (s.width, s.height);
    var (ox, oy) := if !s.viewport then (0, 0) else
      Offset(t, Extent(w, s.scale, true), Extent(h, s.scale, true), (s.width / 3) * s.scale, (s.height / 5) * s.scale);
    Region(ox, oy, Extent(w, s.scale, s.viewport), Extent(h, s.scale, s.viewport),
           Extent(BORDER, s.scale, s.viewport), Extent(RADIUS, s.scale, s.viewport))
  }

  /** A window length in pixels of the drawn region. */
  function Extent(n: nat, scale: nat, viewport: bool): nat {
    if viewport then n * scale / 2 else n * scale
  }

  function Coordinate(v: real, scale: nat, viewport: bool): real {
    if viewport then v * scale as real / 2.0 else v * scale as real
  }

  function Offset(t: Transform, w: nat, h: nat, tx: nat, ty: nat): (int, int) {
    match t
    case 0 => (tx, ty)
    case 1 => (w - ty, tx)
    case 2 => (w - tx, h - ty)
    case 3 => (ty, h - tx)
    case 4 => (w - tx, ty)
    case 5 => (w - ty, h - tx)
    case 6 => (tx, h - ty)
    case _ => (ty, tx)
  }

  /** Where the ball centre at (x, y) of the window lies in the drawn region. */
  function TransformedBall(s: Setup, t: Transform, x: real, y: real): (real, real) {
    var b := TransformedPoint(t, s.width as real, s.height as real, x, y);
    (Coordinate(b.0, s.scale, s.viewport), Coordinate(b.1, s.scale, s.viewport))
  }

  function TransformedPoint(t: Transform, w: real, h: real, x: real, y: real): (real, real) {
    match t
    case 0 => (x, y)
    case 1 => (h - y, x)
    case 2 => (w - x, h - y)
    case 3 => (y, w - x)
    case 4 => (w - x, y)
    case 5 => (h - y, w - x)
    case 6 => (x, h - y)
    case _ => (y, x)
  }

  predicate InArena(s: Setup, x: real, y: real) {
    && !Outside(BORDER + RADIUS, s.width - BORDER - RADIUS, x)
    && !Outside(BORDER + RADIUS, s.height - BORDER - RADIUS, y)
  }

  lemma ScaledPart(n: nat, d: nat, scale: nat)
    requires d > 0
    ensures d * ((n / d) * scale) <= n * scale
  {
    assert d * (n / d) <= n;
    MulMonotonic(scale, d * (n / d), n);
    assert d * ((n / d) * scale) == (d * (n / d)) * scale;
  }

  lemma ScaleAtLeast(n: nat, m: nat, scale: nat)
    requires n >= m
    ensures n * scale >= m * scale
  {
    MulMonotonic(scale, m, n);
  }

  lemma OffsetFits(t: Transform, w: nat, h: nat, tx: nat, ty: nat)
    requires if Sideways(t) then 3 * tx <= h && 5 * ty <= w else 3 * tx <= w && 5 * ty <= h
    ensures
      var o := Offset(t, w / 2, h / 2, tx, ty);
      0 <= o.0 && o.0 + w / 2 <= w && 0 <= o.1 && o.1 + h / 2 <= h
  {
  }

  /** The drawn region, and with it every box painted, lies in the buffer. */
  lemma RegionInBuffer(s: Setup, t: Transform)
    requires s.Valid()
    ensures
      var r := DrawnRegion(s, t);
      && 0 <= r.offX && r.offX + r.width <= BufferWidth(s, t)
      && 0 <= r.offY && r.offY + r.height <= BufferHeight(s, t)
      && 0 < 2 * r.border < r.width && 2 * r.border < r.height
  {
    var w, h := BufferWidth(s, t), BufferHeight(s, t);
    assert w >= 41 * s.scale && h >= 41 * s.scale by {
      ScaleAtLeast(s.width, 41, s.scale);
      ScaleAtLeast(s.height, 41, s.scale);
    }
    var tx, ty := (s.width / 3) * s.scale, (s.height / 5) * s.scale;
    assert if Sideways(t) then 3 * tx <= h && 5 * ty <= w else 3 * tx <= w && 5 * ty <= h by {
      ScaledPart(s.width, 3, s.scale);
      ScaledPart(s.height, 5, s.scale);
    }
    OffsetFits(t, w, h, tx, ty);
  }

  lemma ScaledBetween(lo: real, x: real, hi: real, scale: real)
    requires lo <= x <= hi && scale > 0.0
    ensures lo * scale <= x * scale <= hi * scale
  {
    var p, q := x - lo, hi - x;
    assert p * scale >= 0.0 && q * scale >= 0.0;
    assert x * scale == lo * scale + p * scale;
    assert hi * scale == x * scale + q * scale;
  }

  lemma ScaledCoordinate(size: nat, scale: nat, v: real)
    requires scale >= 1 && 20.0 <= v <= size as real - 20.0
    ensures 20.0 * scale as real <= v * scale as real <= (size * scale) as real - 20.0 * scale as real
  {
    ScaledBetween(20.0, v, size as real - 20.0, scale as real);
    assert (size as real - 20.0) * scale as real == size as real * scale as real - 20.0 * scale as real;
    assert (size * scale) as real == size as real * scale as real;
  }

  /** One coordinate v of the ball, along an axis of the given window length. */
  lemma AxisFits(size: nat, scale: nat, v: real, viewport: bool)
    requires scale >= 1 && 20.0 <= v <= size as real - 20.0
    ensures 0.0 < Coordinate(v, scale, viewport) - Extent(RADIUS, scale, viewport) as real
    ensures Coordinate(v, scale, viewport) + Extent(RADIUS, scale, viewport) as real
      < Extent(size, scale, viewport) as real
  {
    ScaledCoordinate(size, scale, v);
    PartFits(size * scale, scale, v * scale as real, viewport);
  }

  lemma PartFits(size: nat, scale: nat, v: real, viewport: bool)
    requires scale >= 1 && 20.0 * scale as real <= v <= size as real - 20.0 * scale as real
    ensures var c := if viewport then v / 2.0 else v;
      var r, e := if viewport then RADIUS * scale / 2 else RADIUS * scale, if viewport then size / 2 else size;
      0.0 < c - r as real && c + r as real < e as real
  {
    if viewport {
      HalvedFits(size, scale, v);
    } else {
      WholeFits(size, scale, v);
    }
  }

  lemma WholeFits(size: nat, scale: nat, v: real)
    requires scale >= 1 && 20.0 * scale as real <= v <= size as real - 20.0 * scale as real
    ensures 0.0 < v - (RADIUS * scale) as real && v + (RADIUS * scale) as real < size as real
  {
  }

  lemma HalvedFits(size: nat, scale: nat, v: real)
    requires scale >= 1 && 20.0 * scale as real <= v <= size as real - 20.0 * scale as real
    ensures 0.0 < v / 2.0 - (RADIUS * scale / 2) as real
    ensures v / 2.0 + (RADIUS * scale / 2) as real < (size / 2) as real
  {
  }

  lemma TransformedInArena(s: Setup, t: Transform, x: real, y: real, w: nat, h: nat)
    requires s.Valid() && InArena(s, x, y)
    requires (w, h) == if Sideways(t) then (s.height, s.width) else (s.width, s.height)
    ensures
      var b := TransformedPoint(t, s.width as real, s.height as real, x, y);
      20.0 <= b.0 <= w as real - 20.0 && 20.0 <= b.1 <= h as real - 20.0
  {
  }

  /** A ball in the arena stays clear of the edge of the drawn region. */
  lemma BallInRegion(s: Setup, t: Transform, x: real, y: real)
    requires s.Valid() && InArena(s, x, y)
    ensures
      var r, b := DrawnRegion(s, t), TransformedBall(s, t, x, y);
      && 0.0 < b.0 - r.radius as real && b.0 + r.radius as real < r.width as real
      && 0.0 < b.1 - r.radius as real && b.1 + r.radius as real < r.height as real
  {
    var (w, h) := if Sideways(t) then (s.height, s.width) else (s.width, s.height);
    var b := TransformedPoint(t, s.width as real, s.height as real, x, y);
    TransformedInArena(s, t, x, y, w, h);
    AxisFits(w, s.scale, b.0, s.viewport);
    AxisFits(h, s.scale, b.1, s.viewport);
  }

  // -------------------------------------------------------------------- damage

  datatype Rect = Rect(x: int, y: int, width: nat, height: nat) {
    predicate Contains(i: int, j: int) {
      x <= i < x + width && y <= j < y + height
    }
  }

  /** The centre of the disc drawn in the buffer. */
  function DiscCentre(s: Setup, t: Transform, x: real, y: real): (real, real) {
    var r, b := DrawnRegion(s, t), TransformedBall(s, t, x, y);
    (r.offX as real + b.0, r.offY as real + b.1)
  }

  /** Damage posted for a ball: in buffer pixels, or in surface coordinates. */
  function BallDamage(s: Setup, t: Transform, x: real, y: real): Rect {
    if s.damageBuffer then
      var r, b := DrawnRegion(s, t), TransformedBall(s, t, x, y);
      Rect((b.0 - r.radius as real + r.offX as real).Floor, (b.1 - r.radius as real + r.offY as real).Floor,
           r.radius * 2 + 1, r.radius * 2 + 1)
    else
      Rect((x - RADIUS as real).Floor, (y - RADIUS as real).Floor, RADIUS * 2 + 1, RADIUS * 2 + 1)
  }

  /** In damage-buffer mode every pixel of the disc lies in the posted rectangle,
      which lies in the buffer, under every transform. */
  lemma DamageCoversDisc(s: Setup, t: Transform, x: real, y: real, i: int, j: int)
    requires s.Valid() && InArena(s, x, y) && s.damageBuffer
    requires DiscTest(DiscCentre(s, t, x, y).0, DiscCentre(s, t, x, y).1, DrawnRegion(s, t).radius, i, j)
    ensures BallDamage(s, t, x, y).Contains(i, j)
    ensures 0 <= i < BufferWidth(s, t) && 0 <= j < BufferHeight(s, t)
  {
    BallInRegion(s, t, x, y);
    RegionInBuffer(s, t);
    DiscInRange(DiscCentre(s, t, x, y).0, DiscCentre(s, t, x, y).1, DrawnRegion(s, t).radius, i, j);
  }
}

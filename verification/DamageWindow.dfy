/**
 The window of clients/simple-damage.c: two buffers, a ball that is advanced and
 drawn on every frame, and an output transform that may rotate between frames.
 */
module DamageWindow {
  import opened Numbers
  import opened Reflection
  import opened SimpleDamage

  const RED := 0xffff0000
  const WHITE := 0xffffffff
  const TRANSLUCENT := 0x80000000
  const GREEN := 0xff00ff00

  class Buffer {
    var pixels: array?<Pixel>
    var busy: bool

    constructor ()
      ensures pixels == null && !busy
    {
      pixels, busy := null, false;
    }
  }

  /** Border and background of a drawn region, in painting order. */
  ghost function Boxes(r: Region, p: nat, g: Image): Image
    requires p > 0
  {
    var g1 := BoxPainted(g, p, r.offX, r.offY, r.width, r.border, WHITE);
    var g2 := BoxPainted(g1, p, r.offX, r.offY, r.border, r.height, WHITE);
    var g3 := BoxPainted(g2, p, r.offX + r.width - r.border, r.offY, r.border, r.height, WHITE);
    var g4 := BoxPainted(g3, p, r.offX, r.offY + r.height - r.border, r.width, r.border, WHITE);
    BoxPainted(g4, p, r.offX + r.border, r.offY + r.border, r.width - 2 * r.border,
             r.height - 2 * r.border, TRANSLUCENT)
  }

  /** Everything painted below the ball. */
  ghost function Backdrop(s: Setup, t: Transform, g: Image): Image
    requires s.Valid()
  {
    RegionInBuffer(s, t);
    Boxes(DrawnRegion(s, t), BufferWidth(s, t), Cleared(s, t, g))
  }

  /** With a viewport the whole buffer is made red first. */
  ghost function Cleared(s: Setup, t: Transform, g: Image): Image
    requires BufferWidth(s, t) > 0
  {
    if s.viewport then BoxPainted(g, BufferWidth(s, t), 0, 0, BufferWidth(s, t), BufferHeight(s, t), RED) else g
  }

  ghost function Scene(s: Setup, t: Transform, x: real, y: real, g: Image): Image
    requires s.Valid()
  {
    RegionInBuffer(s, t);
    DiscPainted(Backdrop(s, t, g), BufferWidth(s, t), DiscCentre(s, t, x, y).0, DiscCentre(s, t, x, y).1,
                DrawnRegion(s, t).radius, GREEN)
  }

  /** What the backdrop comes to at a pixel, whatever was there before. */
  function BackdropColor(s: Setup, t: Transform, column: int, row: int): Pixel {
    var r := DrawnRegion(s, t);
    var i, j := column - r.offX, row - r.offY;
    if !(0 <= i < r.width && 0 <= j < r.height) then RED
    else if r.border <= i < r.width - r.border && r.border <= j < r.height - r.border then TRANSLUCENT
    else WHITE
  }

  function SceneColor(s: Setup, t: Transform, x: real, y: real, column: int, row: int): Pixel {
    var c := DiscCentre(s, t, x, y);
    if DiscTest(c.0, c.1, DrawnRegion(s, t).radius, column, row) then GREEN else BackdropColor(s, t, column, row)
  }

  /** Outside the drawn region, which there is with a viewport only, the buffer is red. */
  lemma ClearedOutside(s: Setup, t: Transform, r: Region, g: Image, k: nat)
    requires BufferWidth(s, t) > 0 && |g| == BufferWidth(s, t) * BufferHeight(s, t) && k < |g|
    requires !s.viewport ==>
      r.offX == 0 && r.offY == 0 && r.width == BufferWidth(s, t) && r.height == BufferHeight(s, t)
    ensures var p := BufferWidth(s, t);
      !(r.offX <= k % p < r.offX + r.width && r.offY <= k / p < r.offY + r.height) ==> Cleared(s, t, g)[k] == RED
  {
    var p, h := BufferWidth(s, t), BufferHeight(s, t);
    RowMajor.CellOf(p, h, k);
    assert InBox(p, 0, 0, p, h, k);
  }

  /** Without a viewport the drawn region is the buffer. */
  lemma RegionIsBuffer(s: Setup, t: Transform)
    requires !s.viewport
    ensures var r := DrawnRegion(s, t);
      r.offX == 0 && r.offY == 0 && r.width == BufferWidth(s, t) && r.height == BufferHeight(s, t)
  {
  }

  /** The boxes cover the buffer, so nothing of an earlier frame is left. */
  lemma BackdropCovers(s: Setup, t: Transform, g: Image, k: nat)
    requires s.Valid() && |g| == BufferWidth(s, t) * BufferHeight(s, t) && k < |g|
    ensures BufferWidth(s, t) > 0
    ensures Backdrop(s, t, g)[k] == BackdropColor(s, t, k % BufferWidth(s, t), k / BufferWidth(s, t))
  {
    RegionInBuffer(s, t);
    if !s.viewport {
      RegionIsBuffer(s, t);
    }
    ClearedOutside(s, t, DrawnRegion(s, t), g, k);
    BoxesAt(DrawnRegion(s, t), BufferWidth(s, t), Cleared(s, t, g), k);
  }

  /** The five boxes of a drawn region at one pixel. */
  lemma BoxesAt(r: Region, p: nat, g: Image, k: nat)
    requires p > 0 && k < |g| && 0 < 2 * r.border < r.width && 2 * r.border < r.height
    ensures var i, j := k % p - r.offX, k / p - r.offY;
      Boxes(r, p, g)[k] == if !(0 <= i < r.width && 0 <= j < r.height) then g[k]
        else if r.border <= i < r.width - r.border && r.border <= j < r.height - r.border then TRANSLUCENT
        else WHITE
  {
  }

  lemma SceneShows(s: Setup, t: Transform, x: real, y: real, g: Image, k: nat)
    requires s.Valid() && |g| == BufferWidth(s, t) * BufferHeight(s, t) && k < |g|
    ensures BufferWidth(s, t) > 0
    ensures Scene(s, t, x, y, g)[k] == SceneColor(s, t, x, y, k % BufferWidth(s, t), k / BufferWidth(s, t))
  {
    BackdropCovers(s, t, g, k);
  }

  lemma BoxFits(pitch: nat, rows: nat, y: nat, height: nat, length: nat)
    requires y + height <= rows && length == pitch * rows
    ensures (y + height) * pitch <= length
  {
    RowMajor.MulMonotonic(pitch, y + height, rows);
    assert rows * pitch == pitch * rows;
  }

  method PaintInside(pixels: array<Pixel>, pitch: nat, rows: nat, x: nat, y: nat, width: nat, height: nat, color: Pixel)
    requires pixels.Length == pitch * rows && x < pitch && x + width <= pitch && y + height <= rows
    modifies pixels
    ensures pixels[..] == BoxPainted(old(pixels[..]), pitch, x, y, width, height, color)
  {
    BoxFits(pitch, rows, y, height, pixels.Length);
    PaintBox(pixels, pitch, x, y, width, height, color);
  }

  /** A position after dt seconds at velocity v, folded into the arena of that axis. */
  function Moved(size: nat, p: real, v: real, dt: real): real
    requires 2 * (BORDER + RADIUS) < size
  {
    TriangleWave(BORDER + RADIUS, size - BORDER - RADIUS, p + v * dt)
  }

  /** The velocity then: it changes sign with every turn of the reflection loop. */
  function Turned(size: nat, p: real, v: real, dt: real): real
    requires 2 * (BORDER + RADIUS) < size
  {
    v * Sign(Turns(BORDER + RADIUS, size - BORDER - RADIUS, p + v * dt))
  }

  method MoveAxis(size: nat, p: real, v: real, dt: real) returns (p': real, v': real)
    requires 2 * (BORDER + RADIUS) < size
    ensures p' == Moved(size, p, v, dt) && !Outside(BORDER + RADIUS, size - BORDER - RADIUS, p')
    ensures v' == Turned(size, p, v, dt) && Abs(v') == Abs(v)
  {
    p', v' := Reflect(BORDER + RADIUS, size - BORDER - RADIUS, p + v * dt, v);
  }

  lemma Shown(image: Image, s: Setup, t: Transform, x: real, y: real, g: Image)
    requires s.Valid() && |g| == BufferWidth(s, t) * BufferHeight(s, t) && image == Scene(s, t, x, y, g)
    ensures Shows(image, s, t, x, y)
  {
    RegionInBuffer(s, t);
    forall k | 0 <= k < |image|
      ensures image[k] == SceneColor(s, t, x, y, k % BufferWidth(s, t), k / BufferWidth(s, t))
    {
      SceneShows(s, t, x, y, g, k);
    }
  }

  /** In a second, which may wrap the clock, a coordinate changes by its velocity. */
  lemma SecondMoves(size: nat, p: real, v: real, time: nat)
    requires 2 * (BORDER + RADIUS) < size
    requires !Outside(BORDER + RADIUS, size - BORDER - RADIUS, p + v)
    ensures Moved(size, p, v, Window.Elapsed((time + 1000) % 0x1_0000_0000, time)) == p + v
    ensures Turned(size, p, v, Window.Elapsed((time + 1000) % 0x1_0000_0000, time)) == v
  {
    assert Window.Elapsed((time + 1000) % 0x1_0000_0000, time) == 1.0;
    SettleIsTriangleWave(BORDER + RADIUS, size - BORDER - RADIUS, p + v);
  }

  /** In damage-buffer mode the two posted rectangles hold every pixel in which scenes
      with the ball at one and at the other place differ. */
  lemma ChangesAreDamaged(s: Setup, t: Transform, x: real, y: real, x': real, y': real, column: int, row: int)
    requires s.Valid() && InArena(s, x, y) && InArena(s, x', y') && s.damageBuffer
    requires SceneColor(s, t, x, y, column, row) != SceneColor(s, t, x', y', column, row)
    ensures BallDamage(s, t, x, y).Contains(column, row) || BallDamage(s, t, x', y').Contains(column, row)
  {
    var r, c, c' := DrawnRegion(s, t).radius, DiscCentre(s, t, x, y), DiscCentre(s, t, x', y');
    if DiscTest(c.0, c.1, r, column, row) {
      DamageCoversDisc(s, t, x, y, column, row);
    } else {
      assert DiscTest(c'.0, c'.1, r, column, row);
      DamageCoversDisc(s, t, x', y', column, row);
    }
  }

  /** The image shows the ball at a place. */
  ghost predicate Shows(image: Image, s: Setup, t: Transform, x: real, y: real) {
    && BufferWidth(s, t) > 0 && |image| == BufferWidth(s, t) * BufferHeight(s, t)
    && forall k | 0 <= k < |image| ::
         image[k] == SceneColor(s, t, x, y, k % BufferWidth(s, t), k / BufferWidth(s, t))
  }

  /** Wherever the images differ, a rectangle is posted. */
  ghost predicate Damaged(before: Image, after: Image, width: nat, damage: seq<Rect>) {
    && width > 0 && |before| == |after|
    && forall k | 0 <= k < |after| && before[k] != after[k] ::
         exists r <- damage :: r.Contains(k % width, k / width)
  }

  /** So the compositor sees all of a frame's changes that has the transform of the one
      before it. */
  lemma FrameIsDamaged(s: Setup, t: Transform, before: Image, after: Image, x: real, y: real, x': real, y': real)
    requires s.Valid() && InArena(s, x, y) && InArena(s, x', y') && s.damageBuffer
    requires Shows(before, s, t, x, y) && Shows(after, s, t, x', y')
    ensures Damaged(before, after, BufferWidth(s, t), [BallDamage(s, t, x, y), BallDamage(s, t, x', y')])
  {
    var p, damage := BufferWidth(s, t), [BallDamage(s, t, x, y), BallDamage(s, t, x', y')];
    forall k | 0 <= k < |after| && before[k] != after[k]
      ensures exists r <- damage :: r.Contains(k % p, k / p)
    {
      ChangesAreDamaged(s, t, x, y, x', y', k % p, k / p);
      assert damage[0] in damage && damage[1] in damage;
    }
  }

  class Window {
    const setup: Setup
    const first: Buffer
    const second: Buffer
    var transform: Transform
    var x: real
    var y: real
    var dx: real
    var dy: real
    var prevTime: nat
    // dimensions of the buffers created so far
    ghost const initialTransform: Transform
    ghost var Repr: set<object>

    ghost predicate ValidBuffer(b: Buffer)
      reads this, b
    {
      b.pixels != null ==>
        b.pixels in Repr
          && b.pixels.Length == BufferWidth(setup, initialTransform) * BufferHeight(setup, initialTransform)
    }

    /** The ball is in the arena, and both buffers have the dimensions of the first. */
    ghost predicate Valid()
      reads this, Repr
    {
      && this in Repr
      && setup.Valid() && InArena(setup, x, y)
      && first in Repr && second in Repr && first != second
      && ValidBuffer(first) && ValidBuffer(second)
      && (first.pixels != null ==> first.pixels != second.pixels)
      && BufferWidth(setup, transform) == BufferWidth(setup, initialTransform)
      && BufferHeight(setup, transform) == BufferHeight(setup, initialTransform)
    }

    /** The ball starts at a random place of the arena. */
    constructor (setup: Setup, transform: Transform, x: real, y: real, dx: real, dy: real)
      requires setup.Valid() && InArena(setup, x, y)
      ensures Valid() && fresh(Repr)
      ensures this.setup == setup && this.transform == transform
      ensures this.x == x && this.y == y && this.dx == dx && this.dy == dy
    {
      var b0 := new Buffer();
      var b1 := new Buffer();
      this.setup := setup;
      first, second := b0, b1;
      this.transform, this.initialTransform := transform, transform;
      this.x, this.y, this.dx, this.dy, this.prevTime := x, y, dx, dy, 0;
      Repr := {this, b0, b1};
    }

    /** The compositor no longer uses a buffer. */
    method BufferRelease(b: Buffer)
      requires Valid() && (b == first || b == second)
      modifies b`busy
      ensures Valid() && !b.busy
    {
      b.busy := false;
    }

    /** Seconds since the previous frame; the clock wraps at 2^32 milliseconds. */
    static function Elapsed(timestamp: nat, previous: nat): real {
      ((timestamp - previous) % 0x1_0000_0000) as real / 1000.0
    }

    /** What a frame does to the game: the first one only records the time. */
    twostate predicate Advanced(time: nat)
      requires setup.Valid()
      reads this
    {
      && prevTime == time
      && if old(prevTime) == 0 then x == old(x) && y == old(y) && dx == old(dx) && dy == old(dy)
         else
           var dt := Elapsed(time, old(prevTime));
           && x == Moved(setup.width, old(x), old(dx), dt) && dx == Turned(setup.width, old(x), old(dx), dt)
           && y == Moved(setup.height, old(y), old(dy), dt) && dy == Turned(setup.height, old(y), old(dy), dt)
    }

    /** Moves the ball. */
    method AdvanceGame(timestamp: nat)
      requires setup.Valid() && InArena(setup, x, y)
      modifies this`x, this`y, this`dx, this`dy, this`prevTime
      ensures InArena(setup, x, y) && Advanced(timestamp)
      ensures Abs(dx) == Abs(old(dx)) && Abs(dy) == Abs(old(dy))
    {
      if prevTime == 0 {
        prevTime := timestamp;
        return;
      }
      var dt := Elapsed(timestamp, prevTime);
      x, dx := MoveAxis(setup.width, x, dx, dt);
      y, dy := MoveAxis(setup.height, y, dy, dt);
      prevTime := timestamp;
    }

    /** The first buffer the compositor does not hold, allocated on first use; none if it
        holds both. */
    method NextBuffer() returns (b: Buffer?)
      requires Valid()
      modifies this`Repr, first`pixels, second`pixels
      ensures Valid() && fresh(Repr - old(Repr)) && old(Repr) <= Repr
      ensures b == (if !first.busy then first else if !second.busy then second else null)
      ensures b != null ==> b.pixels != null && b.pixels in Repr
      ensures b == null ==> Repr == old(Repr)
      ensures b != null && old(b.pixels) != null ==> b.pixels == old(b.pixels)
      ensures b == first ==> unchanged(second)
      ensures b == second ==> unchanged(first)
    {
      if !first.busy {
        b := first;
      } else if !second.busy {
        b := second;
      } else {
        return null;
      }
      if b.pixels == null {
        b.pixels := new Pixel[BufferWidth(setup, transform) * BufferHeight(setup, transform)](_ => 0);
        Repr := Repr + {b.pixels};
      }
    }

    /** Paints border and background; every box lies in the buffer. */
    method PaintBackdrop(pixels: array<Pixel>)
      requires setup.Valid() && pixels.Length == BufferWidth(setup, transform) * BufferHeight(setup, transform)
      modifies pixels
      ensures pixels[..] == Backdrop(setup, transform, old(pixels[..]))
    {
      var r, pitch, rows := DrawnRegion(setup, transform),
          BufferWidth(setup, transform), BufferHeight(setup, transform);
      RegionInBuffer(setup, transform);
      if setup.viewport {
        PaintInside(pixels, pitch, rows, 0, 0, pitch, rows, RED);
      }
      PaintInside(pixels, pitch, rows, r.offX, r.offY, r.width, r.border, WHITE);
      PaintInside(pixels, pitch, rows, r.offX, r.offY, r.border, r.height, WHITE);
      PaintInside(pixels, pitch, rows, r.offX + r.width - r.border, r.offY, r.border, r.height, WHITE);
      PaintInside(pixels, pitch, rows, r.offX, r.offY + r.height - r.border, r.width, r.border, WHITE);
      PaintInside(pixels, pitch, rows, r.offX + r.border, r.offY + r.border,
                  r.width - 2 * r.border, r.height - 2 * r.border, TRANSLUCENT);
    }

    method PaintBall(pixels: array<Pixel>)
      requires setup.Valid() && InArena(setup, x, y)
      requires pixels.Length == BufferWidth(setup, transform) * BufferHeight(setup, transform)
      modifies pixels
      ensures
        var c := DiscCentre(setup, transform, x, y);
        BufferWidth(setup, transform) > 0 &&
        pixels[..] == DiscPainted(old(pixels[..]), BufferWidth(setup, transform), c.0, c.1,
            DrawnRegion(setup, transform).radius, GREEN)
    {
      var r, c := DrawnRegion(setup, transform), DiscCentre(setup, transform, x, y);
      RegionInBuffer(setup, transform);
      BallInRegion(setup, transform, x, y);
      BoxFits(BufferWidth(setup, transform), BufferHeight(setup, transform), 0, (c.1 + r.radius as real).Floor + 1,
              pixels.Length);
      PaintCircle(pixels, BufferWidth(setup, transform), c.0, c.1, r.radius, GREEN);
    }

    /** The ball is moved, painted, and its old and new places are posted. */
    method DrawFrame(drawn: Buffer, pixels: array<Pixel>, time: nat) returns (damage: seq<Rect>)
      requires Valid() && (drawn == first || drawn == second) && drawn.pixels == pixels
      modifies this`x, this`y, this`dx, this`dy, this`prevTime, this`transform, drawn`busy, pixels
      ensures Valid() && drawn.busy
      ensures transform == if setup.rotating then Rotated(old(transform)) else old(transform)
      ensures Advanced(time)
      ensures damage == [BallDamage(setup, transform, old(x), old(y)), BallDamage(setup, transform, x, y)]
      ensures Shows(pixels[..], setup, transform, x, y)
    {
      if setup.rotating {
        RotationKeepsDimensions(setup, transform);
        transform := Rotated(transform);
      }
      ghost var g := pixels[..];
      PaintBackdrop(pixels);
      damage := [BallDamage(setup, transform, x, y)];
      AdvanceGame(time);
      PaintBall(pixels);
      damage := damage + [BallDamage(setup, transform, x, y)];
      drawn.busy := true;
      Shown(pixels[..], setup, transform, x, y, g);
    }

    /** One frame. Nothing is drawn when the compositor still holds both buffers; the
        program then gives up. */
    method Redraw(time: nat) returns (drawn: Buffer?, damage: seq<Rect>)
      requires Valid()
      modifies Repr
      ensures Valid() && fresh(Repr - old(Repr))
      ensures drawn == if !old(first.busy) then first else if !old(second.busy) then second else null
      ensures drawn == null ==> unchanged(this) && damage == []
      ensures drawn != null ==>
        && drawn.busy && drawn.pixels != null
        && transform == (if setup.rotating then Rotated(old(transform)) else old(transform))
        && Advanced(time)
        && damage == [BallDamage(setup, transform, old(x), old(y)), BallDamage(setup, transform, x, y)]
        && Shows(drawn.pixels[..], setup, transform, x, y)
      ensures drawn == first ==>
        unchanged(second) && (second.pixels != null ==> unchanged(second.pixels))
      ensures drawn == second ==>
        unchanged(first) && (first.pixels != null ==> unchanged(first.pixels))
    {
      drawn := NextBuffer();
      damage := [];
      if drawn != null {
        damage := DrawFrame(drawn, drawn.pixels, time);
      }
    }
  }
}

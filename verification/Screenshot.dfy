/**
 Tiling the outputs into one image in clients/screenshot.c: offsets given from the
 end of the list, the bounds of all outputs, and the rows copied into place.
 */
module Screenshot {
  import opened Numbers
  import opened RowMajor

  /** Four bytes. */
  type Pixel = p: int | 0 <= p < 0x1_0000_0000

  const INT_MAX := 0x7FFF_FFFF
  const INT_MIN := -0x8000_0000

  datatype Tile = Tile(x: int, y: int, width: nat, height: nat, data: seq<Pixel>)

  // ---------------------------------------------------------------------- placement

  function TotalWidth(tiles: seq<Tile>): nat {
    if tiles == [] then 0 else tiles[0].width + TotalWidth(tiles[1..])
  }

  /** Each output stands right of all outputs that come after it in the list. */
  ghost predicate Placed(tiles: seq<Tile>) {
    forall i | 0 <= i < |tiles| :: tiles[i].x == TotalWidth(tiles[i + 1..])
  }

  lemma {:induction false} WidthsAdd(tiles: seq<Tile>, i: nat, j: nat)
    requires i < j <= |tiles|
    ensures TotalWidth(tiles[i..]) >= tiles[i].width + TotalWidth(tiles[j..])
    decreases j - i
  {
    assert tiles[i..][1..] == tiles[i + 1..];
    if i + 1 < j {
      WidthsAdd(tiles, i + 1, j);
    }
  }

  predicate Inside(t: Tile, x: int, y: int) {
    t.x <= x < t.x + t.width && t.y <= y < t.y + t.height
  }

  /** No point belongs to two outputs. */
  lemma Disjoint(tiles: seq<Tile>, i: nat, j: nat, x: int, y: int)
    requires Placed(tiles) && i < |tiles| && j < |tiles|
    requires Inside(tiles[i], x, y) && Inside(tiles[j], x, y)
    ensures i == j
  {
    if i < j {
      DisjointOrdered(tiles, i, j);
    } else if j < i {
      DisjointOrdered(tiles, j, i);
    }
  }

  lemma DisjointOrdered(tiles: seq<Tile>, i: nat, j: nat)
    requires Placed(tiles) && i < j < |tiles|
    ensures tiles[i].x >= tiles[j].x + tiles[j].width
  {
    assert tiles[j..][1..] == tiles[j + 1..];
    if i + 1 < j {
      WidthsAdd(tiles, i + 1, j);
    }
  }

  datatype Bounds = Bounds(min_x: int, min_y: int, max_x: int, max_y: int)

  function Grown(b: Bounds, t: Tile): Bounds {
    Bounds(Min(b.min_x, t.x), Min(b.min_y, t.y), Max(b.max_x, t.x + t.width), Max(b.max_y, t.y + t.height))
  }

  const NO_BOUNDS := Bounds(INT_MAX, INT_MAX, INT_MIN, INT_MIN)

  function BoundsOf(tiles: seq<Tile>): Bounds {
    if tiles == [] then NO_BOUNDS else Grown(BoundsOf(tiles[..|tiles| - 1]), tiles[|tiles| - 1])
  }

  predicate Empty(b: Bounds) {
    b.max_x <= b.min_x || b.max_y <= b.min_y
  }

  /** Outputs have a size and an ordinary position. */
  predicate Sized(t: Tile) {
    0 < t.width && 0 < t.height && INT_MIN <= t.y && t.y + t.height <= INT_MAX && |t.data| == t.width * t.height
  }

  ghost predicate Enclosed(t: Tile, b: Bounds) {
    b.min_x <= t.x && t.x + t.width <= b.max_x && b.min_y <= t.y && t.y + t.height <= b.max_y
  }

  lemma {:induction false} BoundsEnclose(tiles: seq<Tile>)
    ensures forall i | 0 <= i < |tiles| :: Enclosed(tiles[i], BoundsOf(tiles))
  {
    if tiles != [] {
      BoundsEnclose(tiles[..|tiles| - 1]);
    }
  }

  /** The bounds are the least: any box around all outputs is around the bounds. */
  lemma {:induction false} BoundsLeast(tiles: seq<Tile>, b: Bounds)
    requires b.min_x <= INT_MAX && b.min_y <= INT_MAX && INT_MIN <= b.max_x && INT_MIN <= b.max_y
    requires forall i | 0 <= i < |tiles| :: Enclosed(tiles[i], b)
    ensures var r := BoundsOf(tiles);
      b.min_x <= r.min_x && b.min_y <= r.min_y && r.max_x <= b.max_x && r.max_y <= b.max_y
  {
    if tiles != [] {
      var last := |tiles| - 1;
      BoundsLeast(tiles[..last], b);
      assert Enclosed(tiles[last], b);
    }
  }

  ghost predicate AllSized(tiles: seq<Tile>) {
    forall i | 0 <= i < |tiles| :: Sized(tiles[i])
  }

  lemma TileWithinWidth(tiles: seq<Tile>, i: nat)
    requires Placed(tiles) && i < |tiles|
    ensures 0 <= tiles[i].x && tiles[i].x + tiles[i].width <= TotalWidth(tiles)
  {
    assert tiles[i..][1..] == tiles[i + 1..] && tiles[0..] == tiles;
    if i > 0 {
      WidthsAdd(tiles, 0, i);
    }
  }

  /** The image starts at 0, is as wide as all outputs together, and only an empty
      list has none. */
  lemma ImageSize(tiles: seq<Tile>)
    requires Placed(tiles) && AllSized(tiles) && TotalWidth(tiles) <= INT_MAX
    ensures Empty(BoundsOf(tiles)) <==> tiles == []
    ensures tiles != [] ==> BoundsOf(tiles).min_x == 0 && BoundsOf(tiles).max_x == TotalWidth(tiles)
  {
    if tiles != [] {
      var r, last := BoundsOf(tiles), |tiles| - 1;
      BoundsEnclose(tiles);
      assert Enclosed(tiles[0], r) && Enclosed(tiles[last], r) && Sized(tiles[0]);
      WidthBounds(tiles, r);
      assert tiles[last].x == 0 by {
        assert tiles[last + 1..] == [];
      }
      assert tiles[0].x + tiles[0].width == TotalWidth(tiles);
    }
  }

  lemma WidthBounds(tiles: seq<Tile>, r: Bounds)
    requires Placed(tiles) && TotalWidth(tiles) <= INT_MAX && r == BoundsOf(tiles)
    ensures 0 <= r.min_x && r.max_x <= TotalWidth(tiles)
  {
    var box := Bounds(0, Min(r.min_y, INT_MAX), TotalWidth(tiles), Max(r.max_y, INT_MIN));
    BoundsEnclose(tiles);
    forall i | 0 <= i < |tiles| ensures Enclosed(tiles[i], box) {
      assert Enclosed(tiles[i], r);
      TileWithinWidth(tiles, i);
    }
    BoundsLeast(tiles, box);
  }

  // ------------------------------------------------------------------------ the image

  /** The image with one output drawn over it; columns and rows count from (0, top). */
  function Painted(s: seq<Pixel>, w: nat, top: int, t: Tile): (r: seq<Pixel>)
    requires w > 0 && |t.data| == t.width * t.height
    ensures |r| == |s|
  {
    seq(|s|, k requires 0 <= k < |s| =>
      if Inside(t, k % w, k / w + top) then DataAt(t, k % w - t.x, k / w + top - t.y) else s[k])
  }

  function DataAt(t: Tile, x: nat, y: nat): Pixel
    requires x < t.width && y < t.height && |t.data| == t.width * t.height
  {
    CellIndex(t.width, t.height, x, y);
    t.data[y * t.width + x]
  }

  function PaintedAll(s: seq<Pixel>, w: nat, top: int, tiles: seq<Tile>): (r: seq<Pixel>)
    requires w > 0 && forall i | 0 <= i < |tiles| :: |tiles[i].data| == tiles[i].width * tiles[i].height
    ensures |r| == |s|
  {
    if tiles == [] then s
    else Painted(PaintedAll(s, w, top, tiles[..|tiles| - 1]), w, top, tiles[|tiles| - 1])
  }

  lemma PaintedOneMore(s: seq<Pixel>, w: nat, top: int, tiles: seq<Tile>, i: nat)
    requires w > 0 && forall i | 0 <= i < |tiles| :: |tiles[i].data| == tiles[i].width * tiles[i].height
    requires i < |tiles|
    ensures PaintedAll(s, w, top, tiles[..i + 1]) == Painted(PaintedAll(s, w, top, tiles[..i]), w, top, tiles[i])
  {
    assert tiles[..i + 1][..i] == tiles[..i];
  }

  /** Every output's pixels end up at its place, and none is drawn over. */
  lemma {:induction false} PaintedShows(s: seq<Pixel>, w: nat, top: int, tiles: seq<Tile>, i: nat, k: nat)
    requires w > 0 && forall i | 0 <= i < |tiles| :: |tiles[i].data| == tiles[i].width * tiles[i].height
    requires i < |tiles| && k < |s| && Inside(tiles[i], k % w, k / w + top)
    requires forall j | 0 <= j < |tiles| && j != i :: !Inside(tiles[j], k % w, k / w + top)
    ensures PaintedAll(s, w, top, tiles)[k] == DataAt(tiles[i], k % w - tiles[i].x, k / w + top - tiles[i].y)
  {
    if i < |tiles| - 1 {
      PaintedShows(s, w, top, tiles[..|tiles| - 1], i, k);
    }
  }

  /** Pixels outside all outputs keep what was there. */
  lemma {:induction false} PaintedKeeps(s: seq<Pixel>, w: nat, top: int, tiles: seq<Tile>, k: nat)
    requires w > 0 && forall i | 0 <= i < |tiles| :: |tiles[i].data| == tiles[i].width * tiles[i].height
    requires k < |s| && forall j | 0 <= j < |tiles| :: !Inside(tiles[j], k % w, k / w + top)
    ensures PaintedAll(s, w, top, tiles)[k] == s[k]
  {
    if tiles != [] {
      PaintedKeeps(s, w, top, tiles[..|tiles| - 1], k);
    }
  }

  /** Where a pixel of an output is in the image. */
  function PixelIndex(b: Bounds, t: Tile, x: nat, y: nat): int {
    (t.y - b.min_y + y) * b.max_x + (t.x + x)
  }

  function Area(b: Bounds): int {
    b.max_x * (b.max_y - b.min_y)
  }

  /** Pixel k of an image with these bounds is the output's pixel at column x, row y. */
  predicate IsPixel(b: Bounds, t: Tile, x: nat, y: nat, k: int) {
    0 < b.max_x && 0 <= k < Area(b) && k % b.max_x == t.x + x && k / b.max_x + b.min_y == t.y + y
  }

  lemma PixelIndexInBounds(b: Bounds, t: Tile, x: nat, y: nat)
    requires Enclosed(t, b) && b.min_x == 0 && x < t.width && y < t.height
    ensures IsPixel(b, t, x, y, PixelIndex(b, t, x, y))
  {
    CellIndex(b.max_x, b.max_y - b.min_y, t.x + x, t.y - b.min_y + y);
  }

  /** Every pixel of every output is in the finished image, at the output's offset. */
  lemma EveryPixelShown(s: seq<Pixel>, tiles: seq<Tile>, b: Bounds, i: nat, x: nat, y: nat)
    requires Placed(tiles) && AllSized(tiles) && TotalWidth(tiles) <= INT_MAX
    requires i < |tiles| && x < tiles[i].width && y < tiles[i].height
    requires b == BoundsOf(tiles) && |s| == Area(b) && 0 < b.max_x
    ensures var k := PixelIndex(b, tiles[i], x, y);
      0 <= k < |s| && PaintedAll(s, b.max_x, b.min_y, tiles)[k] == DataAt(tiles[i], x, y)
  {
    var t := tiles[i];
    BoundsContain(tiles, b, i);
    PixelIndexInBounds(b, t, x, y);
    ShownPixel(s, tiles, b, i, x, y, PixelIndex(b, t, x, y));
  }

  lemma ShownPixel(s: seq<Pixel>, tiles: seq<Tile>, b: Bounds, i: nat, x: nat, y: nat, k: int)
    requires Placed(tiles) && AllSized(tiles)
    requires i < |tiles| && x < tiles[i].width && y < tiles[i].height
    requires |s| == Area(b) && IsPixel(b, tiles[i], x, y, k)
    ensures PaintedAll(s, b.max_x, b.min_y, tiles)[k] == DataAt(tiles[i], x, y)
  {
    ShownAt(s, tiles, i, b.max_x, b.min_y, k);
  }

  lemma BoundsContain(tiles: seq<Tile>, b: Bounds, i: nat)
    requires Placed(tiles) && AllSized(tiles) && TotalWidth(tiles) <= INT_MAX
    requires i < |tiles| && b == BoundsOf(tiles)
    ensures Enclosed(tiles[i], b) && b.min_x == 0 && Sized(tiles[i])
  {
    ImageSize(tiles);
    BoundsEnclose(tiles);
  }

  lemma ShownAt(s: seq<Pixel>, tiles: seq<Tile>, i: nat, w: nat, top: int, k: nat)
    requires Placed(tiles) && AllSized(tiles) && w > 0
    requires i < |tiles| && k < |s| && Inside(tiles[i], k % w, k / w + top)
    ensures PaintedAll(s, w, top, tiles)[k] == DataAt(tiles[i], k % w - tiles[i].x, k / w + top - tiles[i].y)
  {
    forall j | 0 <= j < |tiles| && j != i ensures !Inside(tiles[j], k % w, k / w + top) {
      if Inside(tiles[j], k % w, k / w + top) {
        Disjoint(tiles, i, j, k % w, k / w + top);
      }
    }
    PaintedShows(s, w, top, tiles, i, k);
  }

  // ----------------------------------------------------------------------- the objects

  class Output {
    const width: nat
    const height: nat
    const offset_y: int
    const data: seq<Pixel>
    var offset_x: int

    constructor (width: nat, height: nat, offset_y: int, data: seq<Pixel>)
      ensures this.width == width && this.height == height && this.offset_y == offset_y && this.data == data
    {
      this.width, this.height, this.offset_y, this.data, offset_x := width, height, offset_y, data, 0;
    }

    function Value(): Tile
      reads this
    {
      Tile(offset_x, offset_y, width, height, data)
    }
  }

  function Values(outputs: seq<Output>): (tiles: seq<Tile>)
    reads outputs
    ensures |tiles| == |outputs| && forall i | 0 <= i < |tiles| :: tiles[i] == outputs[i].Value()
  {
    seq(|outputs|, i requires 0 <= i < |outputs| reads outputs => outputs[i].Value())
  }

  ghost predicate Distinct(outputs: seq<Output>) {
    forall i, j | 0 <= i < j < |outputs| :: outputs[i] != outputs[j]
  }

  /** Placed from index i on, where what stands there is so wide. */
  ghost predicate PlacedFrom(tiles: seq<Tile>, i: nat, width: nat) {
    && i <= |tiles| && width == TotalWidth(tiles[i..])
    && forall j | i <= j < |tiles| :: tiles[j].x == TotalWidth(tiles[j + 1..])
  }

  lemma PlaceOne(tiles: seq<Tile>, after: seq<Tile>, i: nat, width: nat)
    requires i < |tiles| && PlacedFrom(tiles, i + 1, width) && after == tiles[i := tiles[i].(x := width)]
    ensures PlacedFrom(after, i, width + after[i].width)
  {
    assert forall j | i < j <= |tiles| :: after[j..] == tiles[j..];
    assert after[i..][1..] == after[i + 1..];
  }

  /** The first loop: offsets from the end of the list. */
  method PlaceOutputs(outputs: seq<Output>)
    requires Distinct(outputs)
    modifies outputs
    ensures Placed(Values(outputs))
  {
    var position: nat := 0;
    var i := |outputs|;
    while i > 0
      invariant 0 <= i <= |outputs| && PlacedFrom(Values(outputs), i, position)
    {
      i := i - 1;
      ghost var before := Values(outputs);
      outputs[i].offset_x := position;
      PlaceOne(before, Values(outputs), i, position);
      position := position + outputs[i].width;
    }
  }

  /** The size of the image; false when there is nothing to show. */
  method SetBufferSize(outputs: seq<Output>) returns (ok: bool, b: Bounds)
    requires Distinct(outputs)
    modifies outputs
    ensures Placed(Values(outputs)) && b == BoundsOf(Values(outputs)) && ok == !Empty(b)
  {
    PlaceOutputs(outputs);
    b := NO_BOUNDS;
    for i := 0 to |outputs|
      invariant Placed(Values(outputs))
      invariant b == BoundsOf(Values(outputs)[..i])
    {
      assert Values(outputs)[..i + 1][..i] == Values(outputs)[..i];
      b := Grown(b, outputs[i].Value());
    }
    assert Values(outputs)[..|outputs|] == Values(outputs);
    ok := !Empty(b);
  }

  // --------------------------------------------------------------------- writing rows

  /** The pixel a column and row of the image gets from an output. */
  ghost predicate RowsPainted(image: seq<Pixel>, was: seq<Pixel>, w: nat, top: int, t: Tile, rows: nat)
    requires w > 0 && |t.data| == t.width * t.height
  {
    && |image| == |was|
    && forall k | 0 <= k < |was| :: image[k] ==
        if Inside(t, k % w, k / w + top) && k / w + top < t.y + rows
          then DataAt(t, k % w - t.x, k / w + top - t.y)
          else was[k]
  }

  method CopyRow(image: array<Pixel>, d: nat, data: seq<Pixel>, s: nat, width: nat)
    requires d + width <= image.Length && s + width <= |data|
    modifies image
    ensures forall k | 0 <= k < image.Length ::
      image[k] == if d <= k < d + width then data[s + (k - d)] else old(image[k])
  {
    forall k | d <= k < d + width {
      image[k] := data[s + (k - d)];
    }
  }

  lemma RowsPaintedStep(image: seq<Pixel>, after: seq<Pixel>, was: seq<Pixel>, w: nat,
                          h: nat, top: int, t: Tile, i: nat)
    requires 0 < w && |t.data| == t.width * t.height && |was| == w * h
    requires 0 <= t.x && t.x + t.width <= w && top <= t.y && t.y + t.height <= top + h && i < t.height
    requires RowsPainted(image, was, w, top, t, i) && |after| == |image|
    requires var d, s := (t.y - top + i) * w + t.x, i * t.width;
      && 0 <= d && d + t.width <= |image| && s + t.width <= |t.data|
      && forall k | 0 <= k < |image| :: after[k] == if d <= k < d + t.width then t.data[s + (k - d)] else image[k]
    ensures RowsPainted(after, was, w, top, t, i + 1)
  {
    forall k | 0 <= k < |was| ensures after[k] ==
      if Inside(t, k % w, k / w + top) && k / w + top < t.y + (i + 1)
        then DataAt(t, k % w - t.x, k / w + top - t.y)
        else was[k]
    {
      RowOfPixel(w, h, t.y - top + i, t.x, t.width, k);
    }
  }

  /** Which pixels a row's copy writes. */
  lemma RowOfPixel(w: nat, h: nat, row: nat, x: nat, width: nat, k: nat)
    requires 0 < w && row < h && x + width <= w && k < w * h
    ensures row * w + x <= k < row * w + x + width <==> k / w == row && x <= k % w < x + width
    ensures k / w == row ==> k - (row * w + x) == k % w - x
  {
    CellOf(w, h, k);
    if row * w + x <= k < row * w + x + width {
      CellIndex(w, h, k - row * w, row);
    }
  }

  /** The inner loop: one output, row by row. */
  method WriteOutput(image: array<Pixel>, w: nat, h: nat, top: int, t: Tile)
    requires 0 < w && image.Length == w * h && |t.data| == t.width * t.height
    requires 0 <= t.x && t.x + t.width <= w && top <= t.y && t.y + t.height <= top + h
    modifies image
    ensures image[..] == Painted(old(image[..]), w, top, t)
  {
    ghost var was := image[..];
    for i := 0 to t.height
      invariant RowsPainted(image[..], was, w, top, t, i)
    {
      ghost var now := image[..];
      RowInBounds(w, h, t.y - top + i, t.x, t.width);
      RowInBounds(t.width, t.height, i, 0, t.width);
      CopyRow(image, (t.y - top + i) * w + t.x, t.data, i * t.width, t.width);
      RowsPaintedStep(now, image[..], was, w, h, top, t, i);
    }
  }

  lemma RowInBounds(w: nat, h: nat, row: nat, x: nat, width: nat)
    requires row < h && x + width <= w
    ensures 0 <= row * w + x && row * w + x + width <= w * h
  {
    MulMonotonic(w, row + 1, h);
    assert (row + 1) * w == row * w + w && h * w == w * h;
  }

  method WriteTile(image: array<Pixel>, b: Bounds, t: Tile)
    requires Enclosed(t, b) && 0 == b.min_x < b.max_x && Sized(t) && image.Length == Area(b)
    modifies image
    ensures image[..] == Painted(old(image[..]), b.max_x, b.min_y, t)
  {
    WriteOutput(image, b.max_x, b.max_y - b.min_y, b.min_y, t);
  }

  /** The finished image; what no output covers is left as it was. */
  method WriteImage(image: array<Pixel>, outputs: seq<Output>, b: Bounds)
    requires var tiles := Values(outputs);
      Placed(tiles) && AllSized(tiles) && TotalWidth(tiles) <= INT_MAX && b == BoundsOf(tiles) && !Empty(b)
    requires image.Length == Area(b)
    modifies image
    ensures 0 < b.max_x && image[..] == PaintedAll(old(image[..]), b.max_x, b.min_y, Values(outputs))
  {
    ghost var tiles := Values(outputs);
    ghost var was := image[..];
    ImageSize(tiles);
    for i := 0 to |outputs|
      invariant image[..] == PaintedAll(was, b.max_x, b.min_y, tiles[..i])
    {
      BoundsContain(tiles, b, i);
      WriteTile(image, b, outputs[i].Value());
      PaintedOneMore(was, b.max_x, b.min_y, tiles, i);
    }
    assert tiles[..|tiles|] == tiles;
  }
}

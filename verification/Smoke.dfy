/**
 The stable-fluids solver of clients/smoke.c: grids of cells stored row by row and
 updated in place by nested sweeps over the interior. Floats are reals.
 */
module Smoke {
  import opened RowMajor

  type Grid = seq<real>

  // --------------------------------------------------------------- grid cells

  /** Cell k lies in neither the first or last row nor the first or last column. */
  ghost predicate Interior(w: nat, h: nat, k: int) {
    w > 0 && 0 <= k < w * h && 1 <= k % w < w - 1 && 1 <= k / w < h - 1
  }

  lemma InteriorCell(w: nat, h: nat, x: nat, y: nat)
    requires 1 <= x < w - 1 && 1 <= y < h - 1
    ensures Interior(w, h, y * w + x)
    ensures (y * w + x) % w == x && (y * w + x) / w == y
  {
    CellIndex(w, h, x, y);
  }

  lemma Neighbours(w: nat, h: nat, k: int)
    requires Interior(w, h, k)
    ensures 0 <= k - w && 0 <= k - 1 && k + 1 < w * h && k + w < w * h
  {
    var x, y := k % w, k / w;
    assert k == y * w + x;
    MulMonotonic(w, 1, y);
    MulMonotonic(w, y + 2, h);
    assert (y + 2) * w == y * w + 2 * w && h * w == w * h;
  }

  /** Nothing is interior between the last interior cell of row y and the first of
      the next row, counting the rows from above the grid to below it. */
  lemma RowGap(w: nat, h: nat, y: nat)
    requires w >= 2 && h >= 2
    ensures forall k | y * w + w - 1 <= k < (y + 1) * w + 1 :: !Interior(w, h, k)
    ensures y == 0 ==> forall k | k < (y + 1) * w + 1 :: !Interior(w, h, k)
    ensures y == h - 2 ==> forall k | y * w + w - 1 <= k :: !Interior(w, h, k)
  {
    forall k | Interior(w, h, k)
      ensures k / w <= y ==> y >= 1 && k < y * w + w - 1
      ensures k / w > y ==> y < h - 2 && (y + 1) * w + 1 <= k
    {
      var r := k / w;
      assert k == r * w + k % w;
      if r <= y {
        MulMonotonic(w, r, y);
      } else {
        MulMonotonic(w, y + 1, r);
      }
    }
  }

  lemma NoInteriorInThinGrid(w: nat, h: nat)
    requires h < 3 || w < 3
    ensures forall k :: !Interior(w, h, k)
  {
  }

  // -------------------------------------------------------------- relaxation

  /** New value of a cell from its source value and the sum of its neighbours. */
  type Relaxation = (real, real) -> real

  const DIFFUSION := 0.0002

  const DiffuseCell: Relaxation := (s, t) => (s + DIFFUSION * t) / (1.0 + 4.0 * DIFFUSION) * 0.995

  const PressureCell: Relaxation := (s, t) => (s + t) / 4.0

  /** One in-place sweep in row order: left and upper neighbours are already new. */
  ghost predicate Swept(w: nat, h: nat, cell: Relaxation, s: Grid, d0: Grid, d1: Grid) {
    && |s| == |d0| == |d1| == w * h
    && forall k | 0 <= k < w * h :: SweptCell(w, h, cell, s, d0, d1, k)
  }

  ghost predicate SweptCell(w: nat, h: nat, cell: Relaxation, s: Grid, d0: Grid, d1: Grid, k: nat)
    requires k < |s| == |d0| == |d1| == w * h
  {
    if Interior(w, h, k) then
      Neighbours(w, h, k);
      d1[k] == cell(s[k], d1[k - 1] + d0[k + 1] + d1[k - w] + d0[k + w])
    else d1[k] == d0[k]
  }

  ghost predicate SweptTimes(n: nat, w: nat, h: nat, cell: Relaxation, s: Grid, d0: Grid, d1: Grid) {
    if n == 0 then d1 == d0
    else exists m :: SweptTimes(n - 1, w, h, cell, s, d0, m) && Swept(w, h, cell, s, m, d1)
  }

  /** Sweep up to, but not including, cell end. */
  ghost predicate SweptUpTo(w: nat, h: nat, cell: Relaxation, s: Grid, d0: Grid, d1: Grid, end: int) {
    && |s| == |d0| == |d1| == w * h
    && forall k | 0 <= k < w * h :: if k < end then SweptCell(w, h, cell, s, d0, d1, k) else d1[k] == d0[k]
  }

  lemma SweepCellStep(w: nat, h: nat, cell: Relaxation, s: Grid, d0: Grid, d: Grid, k: int, value: real)
    requires SweptUpTo(w, h, cell, s, d0, d, k) && Interior(w, h, k)
    requires (Neighbours(w, h, k); value == cell(s[k], d[k - 1] + d[k + 1] + d[k - w] + d[k + w]))
    ensures SweptUpTo(w, h, cell, s, d0, d[k := value], k + 1)
  {
    forall j {:trigger SweptCell(w, h, cell, s, d0, d[k := value], j)} | 0 <= j < k + 1
      ensures SweptCell(w, h, cell, s, d0, d[k := value], j)
    {
      if Interior(w, h, j) {
        Neighbours(w, h, j);
        assert j < k ==> SweptCell(w, h, cell, s, d0, d, j);
      } else {
        assert SweptCell(w, h, cell, s, d0, d, j);
      }
    }
  }

  lemma SweepSkip(w: nat, h: nat, cell: Relaxation, s: Grid, d0: Grid, d: Grid, from: int, to: int)
    requires SweptUpTo(w, h, cell, s, d0, d, from) && from <= to
    requires forall k | from <= k < to :: !Interior(w, h, k)
    ensures SweptUpTo(w, h, cell, s, d0, d, to)
  {
    forall k | 0 <= k < w * h
      ensures if k < to then SweptCell(w, h, cell, s, d0, d, k) else d[k] == d0[k]
    {
      assert k < from ==> SweptCell(w, h, cell, s, d0, d, k);
      assert from <= k < to ==> !Interior(w, h, k);
    }
  }

  /** Where a row's loop starts: its first interior cell, or the end of the grid. */
  function RowStart(w: nat, h: nat, y: nat): nat {
    if y < h - 1 then y * w + 1 else w * h
  }

  /** The column where a row's loop ends. */
  function RowEnd(w: nat): nat {
    if w < 3 then 1 else w - 1
  }

  lemma SweepSkipFirst(w: nat, h: nat, cell: Relaxation, s: Grid, d: Grid)
    requires |s| == |d| == w * h
    ensures SweptUpTo(w, h, cell, s, d, d, RowStart(w, h, 1))
  {
    if w < 3 || h < 3 {
      NoInteriorInThinGrid(w, h);
    } else {
      RowGap(w, h, 0);
    }
  }

  lemma SweepSkipRow(w: nat, h: nat, cell: Relaxation, s: Grid, d0: Grid, d: Grid, y: nat)
    requires 1 <= y < h - 1
    requires SweptUpTo(w, h, cell, s, d0, d, y * w + RowEnd(w))
    ensures SweptUpTo(w, h, cell, s, d0, d, RowStart(w, h, y + 1))
  {
    if w < 3 {
      NoInteriorInThinGrid(w, h);
    } else {
      RowGap(w, h, y);
      MulMonotonic(w, y + 2, h);
      SweepSkip(w, h, cell, s, d0, d, y * w + w - 1, RowStart(w, h, y + 1));
    }
  }

  method SweepRow(w: nat, h: nat, cell: Relaxation, source: array<real>, dest: array<real>, y: nat, ghost d0: Grid)
    requires source.Length == dest.Length == w * h && source != dest && 1 <= y < h - 1
    requires SweptUpTo(w, h, cell, source[..], d0, dest[..], RowStart(w, h, y))
    modifies dest
    ensures SweptUpTo(w, h, cell, source[..], d0, dest[..], RowStart(w, h, y + 1))
  {
    ghost var s := source[..];
    var l, x := y * w, 1;
    while x < w - 1
      invariant 1 <= x <= RowEnd(w)
      invariant source[..] == s
      invariant SweptUpTo(w, h, cell, s, d0, dest[..], l + x)
    {
      var k := l + x;
      InteriorCell(w, h, x, y);
      Neighbours(w, h, k);
      var t := dest[k - 1] + dest[k + 1] + dest[k - w] + dest[k + w];
      SweepCellStep(w, h, cell, s, d0, dest[..], k, cell(s[k], t));
      dest[k] := cell(source[k], t);
      x := x + 1;
    }
    SweepSkipRow(w, h, cell, s, d0, dest[..], y);
  }

  method Sweep(w: nat, h: nat, cell: Relaxation, source: array<real>, dest: array<real>)
    requires source.Length == dest.Length == w * h && source != dest
    modifies dest
    ensures Swept(w, h, cell, source[..], old(dest[..]), dest[..])
  {
    ghost var s, d0 := source[..], dest[..];
    SweepSkipFirst(w, h, cell, s, d0);
    var y := 1;
    while y < h - 1
      invariant 1 <= y && (y <= h - 1 || y == 1)
      invariant source[..] == s
      invariant SweptUpTo(w, h, cell, s, d0, dest[..], RowStart(w, h, y))
    {
      SweepRow(w, h, cell, source, dest, y, d0);
      y := y + 1;
    }
  }

  // --------------------------------------------------------- maximum principle

  ghost predicate ZeroBorder(w: nat, h: nat, g: Grid) {
    |g| == w * h && forall k | 0 <= k < w * h && !Interior(w, h, k) :: g[k] == 0.0
  }

  ghost predicate Within(lo: real, hi: real, g: Grid) {
    forall k | 0 <= k < |g| :: lo <= g[k] <= hi
  }

  lemma SweptKeepsBorder(w: nat, h: nat, cell: Relaxation, s: Grid, d0: Grid, d1: Grid)
    requires Swept(w, h, cell, s, d0, d1) && ZeroBorder(w, h, d0)
    ensures ZeroBorder(w, h, d1)
  {
    forall k | 0 <= k < w * h && !Interior(w, h, k) ensures d1[k] == 0.0 {
      assert SweptCell(w, h, cell, s, d0, d1, k);
    }
  }

  lemma {:induction false} SweptTimesKeepsBorder(n: nat, w: nat, h: nat, cell: Relaxation, s: Grid, d0: Grid, d1: Grid)
    requires SweptTimes(n, w, h, cell, s, d0, d1) && ZeroBorder(w, h, d0)
    ensures ZeroBorder(w, h, d1)
  {
    if n > 0 {
      var m :| SweptTimes(n - 1, w, h, cell, s, d0, m) && Swept(w, h, cell, s, m, d1);
      SweptTimesKeepsBorder(n - 1, w, h, cell, s, d0, m);
      SweptKeepsBorder(w, h, cell, s, m, d1);
    }
  }

  /** Each relaxed cell is a damped average: by induction in sweep order it stays
      within the damped bound of the source and the neighbours. */
  lemma {:induction false} DiffuseCellBound(w: nat, h: nat, s: Grid, d0: Grid, d1: Grid, bound: real, k: nat)
    requires Swept(w, h, DiffuseCell, s, d0, d1) && ZeroBorder(w, h, d0)
    requires Within(0.0, bound, s) && Within(0.0, bound, d0) && k < w * h
    ensures 0.0 <= d1[k] <= 0.995 * bound
    decreases k
  {
    assert SweptCell(w, h, DiffuseCell, s, d0, d1, k);
    assert 0.0 <= s[k] <= bound;
    if Interior(w, h, k) {
      Neighbours(w, h, k);
      DiffuseCellBound(w, h, s, d0, d1, bound, k - 1);
      DiffuseCellBound(w, h, s, d0, d1, bound, k - w);
      var t := d1[k - 1] + d0[k + 1] + d1[k - w] + d0[k + w];
      assert 0.0 <= t <= 4.0 * bound;
      assert d1[k] == (s[k] + 0.0002 * t) / 1.0008 * 0.995;
    }
  }

  lemma {:induction false} DiffuseContracts(n: nat, w: nat, h: nat, s: Grid, d0: Grid, d1: Grid, bound: real)
    requires SweptTimes(n, w, h, DiffuseCell, s, d0, d1) && ZeroBorder(w, h, d0)
    requires Within(0.0, bound, s) && Within(0.0, bound, d0)
    ensures Within(0.0, bound, d1)
    ensures n > 0 ==> Within(0.0, 0.995 * bound, d1)
  {
    if n > 0 {
      var m :| SweptTimes(n - 1, w, h, DiffuseCell, s, d0, m) && Swept(w, h, DiffuseCell, s, m, d1);
      DiffuseContracts(n - 1, w, h, s, d0, m, bound);
      SweptTimesKeepsBorder(n - 1, w, h, DiffuseCell, s, d0, m);
      forall k: nat | k < w * h ensures 0.0 <= d1[k] <= 0.995 * bound {
        DiffuseCellBound(w, h, s, m, d1, bound, k);
      }
      if |d1| > 0 {
        assert 0.0 <= d1[0] <= 0.995 * bound;
      }
    }
  }

  method Diffuse(w: nat, h: nat, source: array<real>, dest: array<real>)
    requires source.Length == dest.Length == w * h && source != dest
    modifies dest
    ensures SweptTimes(5, w, h, DiffuseCell, source[..], old(dest[..]), dest[..])
  {
    var k := 0;
    while k < 5
      invariant 0 <= k <= 5 && source[..] == old(source[..])
      invariant SweptTimes(k, w, h, DiffuseCell, source[..], old(dest[..]), dest[..])
    {
      Sweep(w, h, DiffuseCell, source, dest);
      k := k + 1;
    }
  }

  // ---------------------------------------------------------------- advection

  /** Backtraced coordinate, kept half a cell away from the border cells. */
  function Clamp(p: real, size: nat): real {
    var q := if p < 0.5 then 0.5 else p;
    if q > size as real - 1.5 then size as real - 1.5 else q
  }

  function Lerp(a: real, b: real, t: real): real {
    a * (1.0 - t) + b * t
  }

  lemma WeightedAverage(a: real, b: real, u: real, t: real, lo: real, hi: real)
    requires 0.0 <= u && 0.0 <= t && lo <= a <= hi && lo <= b <= hi
    ensures lo * (u + t) <= a * u + b * t <= hi * (u + t)
  {
    var p, q, r, s := a - lo, b - lo, hi - a, hi - b;
    assert p * u >= 0.0 && q * t >= 0.0 && r * u >= 0.0 && s * t >= 0.0;
    assert a * u + b * t == lo * (u + t) + p * u + q * t;
    assert a * u + b * t == hi * (u + t) - r * u - s * t;
  }

  lemma LerpWithin(a: real, b: real, t: real, lo: real, hi: real)
    requires 0.0 <= t <= 1.0 && lo <= a <= hi && lo <= b <= hi
    ensures lo <= Lerp(a, b, t) <= hi
  {
    WeightedAverage(a, b, 1.0 - t, t, lo, hi);
  }

  lemma SampleInRange(w: nat, h: nat, px: real, py: real)
    requires w >= 2 && h >= 2 && 0.0 <= px < w as real - 1.0 && 0.0 <= py < h as real - 1.0
    ensures 0 <= px.Floor <= w - 2 && 0 <= py.Floor <= h - 2
    ensures 0 <= py.Floor * w + px.Floor && py.Floor * w + px.Floor + w + 1 < w * h
  {
    var i, j := px.Floor, py.Floor;
    CellIndex(w, h, i, j);
    CellIndex(w, h, i + 1, j + 1);
    assert (j + 1) * w == j * w + w;
  }

  /** Bilinear interpolation at a point at least one cell left of the far border. */
  ghost function Sample(w: nat, h: nat, s: Grid, px: real, py: real): real
    requires |s| == w * h && w >= 2 && h >= 2
    requires 0.0 <= px < w as real - 1.0 && 0.0 <= py < h as real - 1.0
  {
    SampleInRange(w, h, px, py);
    var k := py.Floor * w + px.Floor;
    var fx, fy := px - px.Floor as real, py - py.Floor as real;
    Lerp(Lerp(s[k], s[k + 1], fx), Lerp(s[k + w], s[k + w + 1], fx), fy)
  }

  lemma SampleWithin(w: nat, h: nat, s: Grid, px: real, py: real, lo: real, hi: real)
    requires |s| == w * h && w >= 2 && h >= 2 && Within(lo, hi, s)
    requires 0.0 <= px < w as real - 1.0 && 0.0 <= py < h as real - 1.0
    ensures lo <= Sample(w, h, s, px, py) <= hi
  {
    SampleInRange(w, h, px, py);
    var k := py.Floor * w + px.Floor;
    var fx, fy := px - px.Floor as real, py - py.Floor as real;
    LerpWithin(s[k], s[k + 1], fx, lo, hi);
    LerpWithin(s[k + w], s[k + w + 1], fx, lo, hi);
    LerpWithin(Lerp(s[k], s[k + 1], fx), Lerp(s[k + w], s[k + w + 1], fx), fy, lo, hi);
  }

  /** Every interior cell takes the value found by following the flow backwards. */
  ghost function AdvectedGrid(w: nat, h: nat, u: Grid, v: Grid, s: Grid, d0: Grid): (d1: Grid)
    requires |u| == |v| == |s| == |d0| == w * h
    ensures |d1| == w * h
  {
    seq(w * h, k requires 0 <= k < w * h =>
      if Interior(w, h, k) then Sample(w, h, s, Clamp((k % w) as real - u[k], w), Clamp((k / w) as real - v[k], h))
      else d0[k])
  }

  lemma AdvectedWithin(w: nat, h: nat, u: Grid, v: Grid, s: Grid, d0: Grid, lo: real, hi: real)
    requires |u| == |v| == |s| == |d0| == w * h
    requires Within(lo, hi, s) && ZeroBorder(w, h, d0) && lo <= 0.0 <= hi
    ensures Within(lo, hi, AdvectedGrid(w, h, u, v, s, d0)) && ZeroBorder(w, h, AdvectedGrid(w, h, u, v, s, d0))
  {
    forall k | 0 <= k < w * h && Interior(w, h, k)
      ensures lo <= AdvectedGrid(w, h, u, v, s, d0)[k] <= hi
    {
      SampleWithin(w, h, s, Clamp((k % w) as real - u[k], w), Clamp((k / w) as real - v[k], h), lo, hi);
    }
  }

  // ------------------------------------------- interior loops, cell by cell

  ghost predicate BorderKept(w: nat, h: nat, target: Grid, g0: Grid) {
    && |target| == |g0| == w * h
    && forall k | 0 <= k < w * h && !Interior(w, h, k) :: target[k] == g0[k]
  }

  lemma SkipFirst(w: nat, h: nat, target: Grid, g: Grid)
    requires BorderKept(w, h, target, g)
    ensures Merged(target, g, g, RowStart(w, h, 1))
  {
    if w < 3 || h < 3 {
      NoInteriorInThinGrid(w, h);
    } else {
      RowGap(w, h, 0);
    }
    MergeSkip(target, g, g, 0, RowStart(w, h, 1));
  }

  lemma SkipRow(w: nat, h: nat, target: Grid, g0: Grid, g: Grid, y: nat)
    requires 1 <= y < h - 1 && BorderKept(w, h, target, g0)
    requires Merged(target, g0, g, y * w + RowEnd(w))
    ensures Merged(target, g0, g, RowStart(w, h, y + 1))
  {
    MulMonotonic(w, y + 2, h);
    if w < 3 {
      NoInteriorInThinGrid(w, h);
    } else {
      RowGap(w, h, y);
      MergeSkip(target, g0, g, y * w + w - 1, RowStart(w, h, y + 1));
    }
  }

  method Interpolate(w: nat, h: nat, source: array<real>, x: real, y: real) returns (value: real)
    requires source.Length == w * h && w >= 3 && h >= 3
    ensures value == Sample(w, h, source[..], Clamp(x, w), Clamp(y, h))
  {
    var px, py := x, y;
    if px < 0.5 { px := 0.5; }
    if py < 0.5 { py := 0.5; }
    if px > w as real - 1.5 { px := w as real - 1.5; }
    if py > h as real - 1.5 { py := h as real - 1.5; }
    var i, j := px.Floor, py.Floor;
    var fx, fy := px - i as real, py - j as real;
    SampleInRange(w, h, px, py);
    var k := j * w + i;
    value := Lerp(Lerp(source[k], source[k + 1], fx), Lerp(source[k + w], source[k + w + 1], fx), fy);
  }

  method AdvectRow(w: nat, h: nat, uu: array<real>, vv: array<real>, source: array<real>, dest: array<real>, y: nat,
                   ghost d0: Grid)
    requires uu.Length == vv.Length == source.Length == dest.Length == |d0| == w * h
    requires dest != uu && dest != vv && dest != source && 1 <= y < h - 1
    requires Merged(AdvectedGrid(w, h, uu[..], vv[..], source[..], d0), d0, dest[..], RowStart(w, h, y))
    modifies dest
    ensures Merged(AdvectedGrid(w, h, uu[..], vv[..], source[..], d0), d0, dest[..], RowStart(w, h, y + 1))
  {
    ghost var u, v, s := uu[..], vv[..], source[..];
    ghost var target := AdvectedGrid(w, h, u, v, s, d0);
    var l, x := y * w, 1;
    while x < w - 1
      invariant 1 <= x <= RowEnd(w)
      invariant uu[..] == u && vv[..] == v && source[..] == s
      invariant Merged(target, d0, dest[..], l + x)
    {
      var k := l + x;
      InteriorCell(w, h, x, y);
      dest[k] := Interpolate(w, h, source, x as real - uu[k], y as real - vv[k]);
      x := x + 1;
    }
    SkipRow(w, h, target, d0, dest[..], y);
  }

  method Advect(w: nat, h: nat, uu: array<real>, vv: array<real>, source: array<real>, dest: array<real>)
    requires uu.Length == vv.Length == source.Length == dest.Length == w * h
    requires dest != uu && dest != vv && dest != source
    modifies dest
    ensures dest[..] == AdvectedGrid(w, h, uu[..], vv[..], source[..], old(dest[..]))
  {
    ghost var u, v, s, d0 := uu[..], vv[..], source[..], dest[..];
    ghost var target := AdvectedGrid(w, h, u, v, s, d0);
    SkipFirst(w, h, target, d0);
    var y := 1;
    while y < h - 1
      invariant 1 <= y && (y <= h - 1 || y == 1)
      invariant uu[..] == u && vv[..] == v && source[..] == s
      invariant Merged(target, d0, dest[..], RowStart(w, h, y))
    {
      AdvectRow(w, h, uu, vv, source, dest, y, d0);
      y := y + 1;
    }
  }

  // --------------------------------------------------------------- projection

  /** Scaled by the cell size 1 / w, as both functions below are. */
  function Divergence(w: nat, du: real, dv: real): real
    requires w > 0
  {
    -0.5 * (1.0 / w as real) * (du + dv)
  }

  function Slope(w: nat, before: real, after: real): real
    requires w > 0
  {
    0.5 * (after - before) / (1.0 / w as real)
  }

  ghost function DivergenceGrid(w: nat, h: nat, u: Grid, v: Grid, d0: Grid): (d1: Grid)
    requires |u| == |v| == |d0| == w * h
    ensures |d1| == w * h
  {
    seq(w * h, k requires 0 <= k < w * h =>
      if Interior(w, h, k) then
        Neighbours(w, h, k);
        Divergence(w, u[k + 1] - u[k - 1], v[k + w] - v[k - w])
      else d0[k])
  }

  /** What becomes of a cell of which only the first bytes are cleared. */
  type Cut = f: real -> real | f(0.0) == 0.0 witness (x: real) => x

  /** A grid of n four-byte cells after the clearing of n bytes. */
  function QuarterCleared(cut: Cut, g: Grid, k: nat): real
    requires k < |g|
  {
    if k < |g| / 4 then 0.0
    else if k == |g| / 4 && |g| % 4 != 0 then cut(g[k])
    else g[k]
  }

  /** The pressure grid after memset(p, 0, h * w), and after the loop has cleared the
      interior. */
  ghost function ClearedGrid(w: nat, h: nat, cut: Cut, p0: Grid): (p1: Grid)
    requires |p0| == w * h
    ensures |p1| == w * h
  {
    seq(w * h, k requires 0 <= k < w * h => if Interior(w, h, k) then 0.0 else QuarterCleared(cut, p0, k))
  }

  /** The component g with the pressure difference over cells k - step and k + step
      taken out. */
  ghost function GradientRemoved(w: nat, h: nat, g: Grid, p: Grid, step: nat): (g1: Grid)
    requires |g| == |p| == w * h && (step == 1 || step == w)
    ensures |g1| == w * h
  {
    seq(w * h, k requires 0 <= k < w * h =>
      if Interior(w, h, k) then
        Neighbours(w, h, k);
        g[k] - Slope(w, p[k - step], p[k + step])
      else g[k])
  }

  method ClearQuarter(p: array<real>, cut: Cut)
    modifies p
    ensures forall k | 0 <= k < p.Length :: p[k] == QuarterCleared(cut, old(p[..]), k)
  {
    for i := 0 to p.Length / 4
      invariant forall k | 0 <= k < p.Length :: p[k] == if k < i then 0.0 else old(p[k])
    {
      p[i] := 0.0;
    }
    if p.Length % 4 != 0 {
      p[p.Length / 4] := cut(p[p.Length / 4]);
    }
  }

  method DivergeRow(w: nat, h: nat, u: array<real>, v: array<real>, p: array<real>, div: array<real>, y: nat,
                    ghost p0: Grid, ghost d0: Grid, ghost pTarget: Grid)
    requires u.Length == v.Length == p.Length == div.Length == |p0| == |d0| == w * h
    requires u != p && u != div && v != p && v != div && p != div
    requires 1 <= y < h - 1 && BorderKept(w, h, pTarget, p0)
    requires forall k | 0 <= k < w * h && Interior(w, h, k) :: pTarget[k] == 0.0
    requires Merged(DivergenceGrid(w, h, u[..], v[..], d0), d0, div[..], RowStart(w, h, y))
    requires Merged(pTarget, p0, p[..], RowStart(w, h, y))
    modifies p, div
    ensures Merged(DivergenceGrid(w, h, u[..], v[..], d0), d0, div[..], RowStart(w, h, y + 1))
    ensures Merged(pTarget, p0, p[..], RowStart(w, h, y + 1))
  {
    ghost var u0, v0 := u[..], v[..];
    ghost var dTarget := DivergenceGrid(w, h, u0, v0, d0);
    var l, x := y * w, 1;
    while x < w - 1
      invariant 1 <= x <= RowEnd(w)
      invariant u[..] == u0 && v[..] == v0
      invariant Merged(dTarget, d0, div[..], l + x) && Merged(pTarget, p0, p[..], l + x)
    {
      var k := l + x;
      InteriorCell(w, h, x, y);
      Neighbours(w, h, k);
      div[k] := Divergence(w, u[k + 1] - u[k - 1], v[k + w] - v[k - w]);
      p[k] := 0.0;
      x := x + 1;
    }
    SkipRow(w, h, dTarget, d0, div[..], y);
    SkipRow(w, h, pTarget, p0, p[..], y);
  }

  method ClearAndDiverge(w: nat, h: nat, cut: Cut, u: array<real>, v: array<real>, p: array<real>, div: array<real>)
    requires u.Length == v.Length == p.Length == div.Length == w * h
    requires u != p && u != div && v != p && v != div && p != div
    modifies p, div
    ensures div[..] == DivergenceGrid(w, h, u[..], v[..], old(div[..]))
    ensures p[..] == ClearedGrid(w, h, cut, old(p[..]))
  {
    ghost var p0 := p[..];
    ClearQuarter(p, cut);
    ghost var u0, v0, p1, d0 := u[..], v[..], p[..], div[..];
    ghost var dTarget, pTarget := DivergenceGrid(w, h, u0, v0, d0), ClearedGrid(w, h, cut, p0);
    SkipFirst(w, h, dTarget, d0);
    SkipFirst(w, h, pTarget, p1);
    var y := 1;
    while y < h - 1
      invariant 1 <= y && (y <= h - 1 || y == 1)
      invariant u[..] == u0 && v[..] == v0
      invariant Merged(dTarget, d0, div[..], RowStart(w, h, y)) && Merged(pTarget, p1, p[..], RowStart(w, h, y))
    {
      DivergeRow(w, h, u, v, p, div, y, p1, d0, pTarget);
      y := y + 1;
    }
  }

  method RemoveGradientRow(w: nat, h: nat, u: array<real>, v: array<real>, p: array<real>, y: nat,
                           ghost u0: Grid, ghost v0: Grid)
    requires u.Length == v.Length == p.Length == |u0| == |v0| == w * h
    requires u != v && u != p && v != p && 1 <= y < h - 1
    requires Merged(GradientRemoved(w, h, u0, p[..], 1), u0, u[..], RowStart(w, h, y))
    requires Merged(GradientRemoved(w, h, v0, p[..], w), v0, v[..], RowStart(w, h, y))
    modifies u, v
    ensures Merged(GradientRemoved(w, h, u0, p[..], 1), u0, u[..], RowStart(w, h, y + 1))
    ensures Merged(GradientRemoved(w, h, v0, p[..], w), v0, v[..], RowStart(w, h, y + 1))
  {
    ghost var p0 := p[..];
    ghost var uTarget, vTarget := GradientRemoved(w, h, u0, p0, 1), GradientRemoved(w, h, v0, p0, w);
    var l, x := y * w, 1;
    while x < w - 1
      invariant 1 <= x <= RowEnd(w)
      invariant p[..] == p0
      invariant Merged(uTarget, u0, u[..], l + x) && Merged(vTarget, v0, v[..], l + x)
    {
      var k := l + x;
      InteriorCell(w, h, x, y);
      Neighbours(w, h, k);
      u[k] := u[k] - Slope(w, p[k - 1], p[k + 1]);
      v[k] := v[k] - Slope(w, p[k - w], p[k + w]);
      x := x + 1;
    }
    SkipRow(w, h, uTarget, u0, u[..], y);
    SkipRow(w, h, vTarget, v0, v[..], y);
  }

  method RemoveGradient(w: nat, h: nat, u: array<real>, v: array<real>, p: array<real>)
    requires u.Length == v.Length == p.Length == w * h
    requires u != v && u != p && v != p
    modifies u, v
    ensures u[..] == GradientRemoved(w, h, old(u[..]), p[..], 1)
    ensures v[..] == GradientRemoved(w, h, old(v[..]), p[..], w)
  {
    ghost var u0, v0, p0 := u[..], v[..], p[..];
    ghost var uTarget, vTarget := GradientRemoved(w, h, u0, p0, 1), GradientRemoved(w, h, v0, p0, w);
    SkipFirst(w, h, uTarget, u0);
    SkipFirst(w, h, vTarget, v0);
    var y := 1;
    while y < h - 1
      invariant 1 <= y && (y <= h - 1 || y == 1)
      invariant p[..] == p0
      invariant Merged(uTarget, u0, u[..], RowStart(w, h, y)) && Merged(vTarget, v0, v[..], RowStart(w, h, y))
    {
      RemoveGradientRow(w, h, u, v, p, y, u0, v0);
      y := y + 1;
    }
  }

  /** The velocity (u, v) loses the gradient of a pressure that five sweeps fit to
      its divergence; p and div are scratch grids. */
  ghost predicate Projected(w: nat, h: nat, u0: Grid, v0: Grid, p0: Grid, d0: Grid,
                            u1: Grid, v1: Grid, p1: Grid, d1: Grid)
  {
    exists cut: Cut :: ProjectedBy(cut, w, h, u0, v0, p0, d0, u1, v1, p1, d1)
  }

  ghost predicate ProjectedBy(cut: Cut, w: nat, h: nat, u0: Grid, v0: Grid, p0: Grid, d0: Grid,
                              u1: Grid, v1: Grid, p1: Grid, d1: Grid)
  {
    && |u0| == |v0| == |p0| == |d0| == |p1| == w * h
    && d1 == DivergenceGrid(w, h, u0, v0, d0)
    && SweptTimes(5, w, h, PressureCell, d1, ClearedGrid(w, h, cut, p0), p1)
    && u1 == GradientRemoved(w, h, u0, p1, 1)
    && v1 == GradientRemoved(w, h, v0, p1, w)
  }

  lemma ProjectedKeepsBorder(w: nat, h: nat, u0: Grid, v0: Grid, p0: Grid, d0: Grid,
                             u1: Grid, v1: Grid, p1: Grid, d1: Grid)
    requires Projected(w, h, u0, v0, p0, d0, u1, v1, p1, d1)
    requires ZeroBorder(w, h, u0) && ZeroBorder(w, h, v0) && ZeroBorder(w, h, p0) && ZeroBorder(w, h, d0)
    ensures ZeroBorder(w, h, u1) && ZeroBorder(w, h, v1) && ZeroBorder(w, h, p1) && ZeroBorder(w, h, d1)
  {
    var cut: Cut :| ProjectedBy(cut, w, h, u0, v0, p0, d0, u1, v1, p1, d1);
    SweptTimesKeepsBorder(5, w, h, PressureCell, d1, ClearedGrid(w, h, cut, p0), p1);
  }

  method Project(w: nat, h: nat, cut: Cut, u: array<real>, v: array<real>, p: array<real>, div: array<real>)
    requires u.Length == v.Length == p.Length == div.Length == w * h
    requires u != v && u != p && u != div && v != p && v != div && p != div
    modifies u, v, p, div
    ensures ProjectedBy(cut, w, h, old(u[..]), old(v[..]), old(p[..]), old(div[..]), u[..], v[..], p[..], div[..])
  {
    ClearAndDiverge(w, h, cut, u, v, p, div);
    ghost var cleared := p[..];
    var k := 0;
    while k < 5
      invariant 0 <= k <= 5
      invariant div[..] == DivergenceGrid(w, h, old(u[..]), old(v[..]), old(div[..]))
      invariant u[..] == old(u[..]) && v[..] == old(v[..])
      invariant SweptTimes(k, w, h, PressureCell, div[..], cleared, p[..])
    {
      Sweep(w, h, PressureCell, div, p);
      k := k + 1;
    }
    RemoveGradient(w, h, u, v, p);
  }
}

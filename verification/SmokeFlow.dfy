/**
 What the steps of the solver of clients/smoke.c do to a flow, cell by cell: what a
 projection leaves of the divergence, and where advection carries a value.
 */
module SmokeFlow {
  import opened Numbers
  import opened RowMajor
  import opened Smoke

  // --------------------------------------------------------------- projection

  /** A cell with two more cells of an array of the given length on all sides. */
  predicate Deep(w: nat, length: nat, k: int) {
    2 * w <= k < length - 2 * w && 2 <= k < length - 2
  }

  /** The column and row of a cell whose four neighbours are interior. */
  predicate Inner(w: nat, h: nat, x: nat, y: nat) {
    2 <= x < w - 2 && 2 <= y < h - 2
  }

  lemma InnerDeep(w: nat, h: nat, x: nat, y: nat)
    requires Inner(w, h, x, y)
    ensures Deep(w, w * h, y * w + x)
  {
    MulMonotonic(w, 2, y);
    MulMonotonic(w, y + 3, h);
    assert (y + 3) * w == y * w + 3 * w && h * w == w * h;
  }

  /** What flows out of the four sides of a cell. */
  function Outflow(w: nat, u: Grid, v: Grid, k: int): real
    requires |u| == |v| && Deep(w, |u|, k)
  {
    u[k + 1] - u[k - 1] + v[k + w] - v[k - w]
  }

  /** The second differences of a grid over one cell and over two. */
  function Bend(w: nat, p: Grid, k: int): real
    requires Deep(w, |p|, k)
  {
    p[k + 1] + p[k - 1] + p[k + w] + p[k - w] - 4.0 * p[k]
  }

  function WideBend(w: nat, p: Grid, k: int): real
    requires Deep(w, |p|, k)
  {
    p[k + 2] + p[k - 2] + p[k + 2 * w] + p[k - 2 * w] - 4.0 * p[k]
  }

  lemma DividedByInverse(x: real, w: real)
    requires w > 0.0
    ensures x / (1.0 / w) == x * w
  {
    var q := 1.0 / w;
    assert q * w == 1.0 && q > 0.0;
    var y := x / q;
    assert y * q == x;
    assert x * w == y * q * w == y * (q * w);
  }

  lemma SlopePlain(w: nat, before: real, after: real)
    requires w > 0
    ensures Slope(w, before, after) == w as real / 2.0 * (after - before)
  {
    DividedByInverse(0.5 * (after - before), w as real);
  }

  /** What is left of the difference of a component over a cell: a and b were its values
      behind and before the cell, a1 and b1 they are now. */
  lemma DifferenceLeft(r: real, a: real, b: real, a1: real, b1: real, after: real, here: real, before: real)
    requires a1 == a - r * (after - here) && b1 == b - r * (here - before)
    ensures a1 - b1 == a - b - r * (after + before - 2.0 * here)
  {
    var p, q := after - here, here - before;
    assert after + before - 2.0 * here == p - q;
    assert r * (p - q) == r * p - r * q;
  }

  lemma OutflowOf(r: real, d: real, e: real, d1: real, e1: real, a: real, b: real, here: real, c: real)
    requires d1 == d - r * (a - 2.0 * here) && e1 == e - r * (b - 2.0 * here) && c == a + b - 4.0 * here
    ensures d1 + e1 == d + e - r * c
  {
    var p, q := a - 2.0 * here, b - 2.0 * here;
    assert c == p + q;
    assert r * (p + q) == r * p + r * q;
  }

  /** The outflow of a cell is less by r times the second differences over two cells. */
  predicate Drained(w: nat, r: real, u0: Grid, v0: Grid, u1: Grid, v1: Grid, p: Grid, k: int) {
    && |u0| == |v0| == |u1| == |v1| == |p| && Deep(w, |p|, k)
    && Outflow(w, u1, v1, k) == Outflow(w, u0, v0, k) - r * WideBend(w, p, k)
  }

  /** The pressure difference over a cell was taken off the component in it. */
  predicate Lowered(r: real, g: Grid, g1: Grid, p: Grid, step: nat, k: int) {
    && |g| == |g1| == |p| && 0 <= k - step && k + step < |g|
    && g1[k] == g[k] - r * (p[k + step] - p[k - step])
  }

  lemma CellLowered(w: nat, h: nat, r: real, g: Grid, p: Grid, step: nat, x: nat, y: nat)
    requires |g| == |p| == w * h && (step == 1 || step == w) && 1 <= x < w - 1 && 1 <= y < h - 1
    requires r == w as real / 2.0
    ensures Lowered(r, g, GradientRemoved(w, h, g, p, step), p, step, y * w + x)
  {
    var k := y * w + x;
    InteriorCell(w, h, x, y);
    Neighbours(w, h, k);
    SlopePlain(w, p[k - step], p[k + step]);
  }

  lemma LeftAndRightLowered(w: nat, h: nat, r: real, g: Grid, g1: Grid, p: Grid, x: nat, y: nat)
    requires |g| == |p| == w * h && Inner(w, h, x, y) && r == w as real / 2.0
    requires g1 == GradientRemoved(w, h, g, p, 1)
    ensures Lowered(r, g, g1, p, 1, y * w + x + 1) && Lowered(r, g, g1, p, 1, y * w + x - 1)
  {
    CellLowered(w, h, r, g, p, 1, x + 1, y);
    CellLowered(w, h, r, g, p, 1, x - 1, y);
  }

  lemma NextRows(w: nat, x: nat, y: nat)
    requires y > 0
    ensures (y + 1) * w + x == y * w + x + w && (y - 1) * w + x == y * w + x - w
  {
  }

  lemma AboveAndBelowLowered(w: nat, h: nat, r: real, g: Grid, g1: Grid, p: Grid, x: nat, y: nat)
    requires |g| == |p| == w * h && Inner(w, h, x, y) && r == w as real / 2.0
    requires g1 == GradientRemoved(w, h, g, p, w)
    ensures Lowered(r, g, g1, p, w, y * w + x + w) && Lowered(r, g, g1, p, w, y * w + x - w)
  {
    NextRows(w, x, y);
    CellLowered(w, h, r, g, p, w, x, y + 1);
    CellLowered(w, h, r, g, p, w, x, y - 1);
  }

  lemma LoweredOutflow(w: nat, r: real, u0: Grid, v0: Grid, u1: Grid, v1: Grid, p: Grid, k: int)
    requires |u0| == |v0| == |p| && Deep(w, |p|, k)
    requires Lowered(r, u0, u1, p, 1, k + 1) && Lowered(r, u0, u1, p, 1, k - 1)
    requires Lowered(r, v0, v1, p, w, k + w) && Lowered(r, v0, v1, p, w, k - w)
    ensures Drained(w, r, u0, v0, u1, v1, p, k)
  {
    SidesDrained(r, u0[k + 1], u0[k - 1], v0[k + w], v0[k - w], u1[k + 1], u1[k - 1], v1[k + w], v1[k - w],
                 p[k + 2], p[k - 2], p[k + 2 * w], p[k - 2 * w], p[k], WideBend(w, p, k));
  }

  lemma SidesDrained(r: real, a: real, b: real, c: real, d: real, a1: real, b1: real, c1: real, d1: real,
                     right: real, left: real, below: real, above: real, here: real, bend: real)
    requires a1 == a - r * (right - here) && b1 == b - r * (here - left)
    requires c1 == c - r * (below - here) && d1 == d - r * (here - above)
    requires bend == right + left + below + above - 4.0 * here
    ensures a1 - b1 + c1 - d1 == a - b + c - d - r * bend
  {
    DifferenceLeft(r, a, b, a1, b1, right, here, left);
    DifferenceLeft(r, c, d, c1, d1, below, here, above);
    OutflowOf(r, a - b, c - d, a1 - b1, c1 - d1, right + left, below + above, here, bend);
  }

  lemma GradientOutflow(w: nat, h: nat, r: real, u0: Grid, v0: Grid, u1: Grid, v1: Grid, p: Grid, x: nat, y: nat)
    requires |u0| == |v0| == |p| == w * h && Inner(w, h, x, y) && r == w as real / 2.0
    requires u1 == GradientRemoved(w, h, u0, p, 1) && v1 == GradientRemoved(w, h, v0, p, w)
    ensures Drained(w, r, u0, v0, u1, v1, p, y * w + x)
  {
    InnerDeep(w, h, x, y);
    LeftAndRightLowered(w, h, r, u0, u1, p, x, y);
    AboveAndBelowLowered(w, h, r, v0, v1, p, x, y);
    LoweredOutflow(w, r, u0, v0, u1, v1, p, y * w + x);
  }

  /** A projection takes from the outflow of a cell half the width times the second
      differences, over two cells, of the pressure it has found. */
  lemma OutflowLeft(cut: Cut, w: nat, h: nat, u0: Grid, v0: Grid, p0: Grid, d0: Grid,
                    u1: Grid, v1: Grid, p: Grid, d1: Grid, x: nat, y: nat)
    requires ProjectedBy(cut, w, h, u0, v0, p0, d0, u1, v1, p, d1) && Inner(w, h, x, y)
    ensures Drained(w, w as real / 2.0, u0, v0, u1, v1, p, y * w + x)
  {
    GradientOutflow(w, h, w as real / 2.0, u0, v0, u1, v1, p, x, y);
  }

  /** The pressure has the second differences its equation asks for, the outflow over
      twice the width, and four times as much over two cells. */
  predicate Balanced(w: nat, u: Grid, v: Grid, p: Grid, k: int) {
    && w > 0 && |u| == |v| == |p| && Deep(w, |p|, k)
    && Bend(w, p, k) == Outflow(w, u, v, k) / (2.0 * w as real)
    && WideBend(w, p, k) == 4.0 * Bend(w, p, k)
  }

  predicate Still(w: nat, u: Grid, v: Grid, k: int) {
    |u| == |v| && Deep(w, |u|, k) && Outflow(w, u, v, k) == 0.0
  }

  lemma DrainedStill(w: nat, u0: Grid, v0: Grid, u1: Grid, v1: Grid, p: Grid, k: int)
    requires Drained(w, w as real / 2.0, u0, v0, u1, v1, p, k) && Balanced(w, u0, v0, p, k)
    ensures Still(w, u1, v1, k)
  {
    TakenAway(w as real, Outflow(w, u0, v0, k), Bend(w, p, k), WideBend(w, p, k));
  }

  /** Where it does, nothing flows out after a projection. */
  lemma NothingFlowsOut(cut: Cut, w: nat, h: nat, u0: Grid, v0: Grid, p0: Grid, d0: Grid,
                        u1: Grid, v1: Grid, p: Grid, d1: Grid, x: nat, y: nat)
    requires ProjectedBy(cut, w, h, u0, v0, p0, d0, u1, v1, p, d1) && Inner(w, h, x, y)
    requires Balanced(w, u0, v0, p, y * w + x)
    ensures Still(w, u1, v1, y * w + x)
  {
    OutflowLeft(cut, w, h, u0, v0, p0, d0, u1, v1, p, d1, x, y);
    DrainedStill(w, u0, v0, u1, v1, p, y * w + x);
  }

  lemma TakenAway(w: real, d: real, near: real, far: real)
    requires w > 0.0 && near == d / (2.0 * w) && far == 4.0 * near
    ensures d - w / 2.0 * far == 0.0
  {
    assert near * (2.0 * w) == d;
  }

  // ----------------------------------------------------------------- relaxing

  lemma DivergencePlain(w: nat, du: real, dv: real)
    requires w > 0
    ensures Divergence(w, du, dv) == -((du + dv) / (2.0 * w as real))
  {
    var r, d := w as real, du + dv;
    var q := 1.0 / r;
    assert q * r == 1.0;
    var y := d / (2.0 * r);
    assert y * (2.0 * r) == d;
    assert -0.5 * q * d == -0.5 * q * (y * (2.0 * r)) == -(y * (q * r));
  }

  /** The equation of the pressure at a cell: its second differences are the outflow
      over twice the width. */
  ghost predicate Solves(w: nat, h: nat, u: Grid, v: Grid, p: Grid, k: int)
    requires |u| == |v| == |p| == w * h
  {
    && Interior(w, h, k)
    && (Neighbours(w, h, k);
        p[k + 1] + p[k - 1] + p[k + w] + p[k - w] - 4.0 * p[k]
          == (u[k + 1] - u[k - 1] + v[k + w] - v[k - w]) / (2.0 * w as real))
  }

  /** A relaxing sweep leaves alone just the pressure that solves its equation
      everywhere. */
  lemma RelaxedIff(w: nat, h: nat, u: Grid, v: Grid, d0: Grid, p: Grid)
    requires |u| == |v| == |d0| == |p| == w * h
    ensures Swept(w, h, PressureCell, DivergenceGrid(w, h, u, v, d0), p, p)
      <==> forall k | Interior(w, h, k) :: Solves(w, h, u, v, p, k)
  {
    var d := DivergenceGrid(w, h, u, v, d0);
    forall k: nat | k < w * h
      ensures SweptCell(w, h, PressureCell, d, p, p, k) <==> (Interior(w, h, k) ==> Solves(w, h, u, v, p, k))
    {
      if Interior(w, h, k) {
        Neighbours(w, h, k);
        DivergencePlain(w, u[k + 1] - u[k - 1], v[k + w] - v[k - w]);
      }
    }
  }

  ghost predicate Near(a: Grid, p: Grid, e: real) {
    |a| == |p| && forall k | 0 <= k < |a| :: Abs(a[k] - p[k]) <= e
  }

  /** No relaxed cell is farther from the solution than all cells were before. */
  lemma {:induction false} CellNoFarther(w: nat, h: nat, d: Grid, p: Grid, a: Grid, b: Grid, e: real, k: nat)
    requires Swept(w, h, PressureCell, d, p, p) && Swept(w, h, PressureCell, d, a, b) && Near(a, p, e)
    requires k < w * h
    ensures Abs(b[k] - p[k]) <= e
    decreases k
  {
    assert SweptCell(w, h, PressureCell, d, a, b, k) && SweptCell(w, h, PressureCell, d, p, p, k);
    if Interior(w, h, k) {
      Neighbours(w, h, k);
      CellNoFarther(w, h, d, p, a, b, e, k - 1);
      CellNoFarther(w, h, d, p, a, b, e, k - w);
    }
  }

  /** Relaxing the pressure never takes it farther from a solution of its equation. */
  lemma {:induction false} RelaxingNoFarther(n: nat, w: nat, h: nat, d: Grid, p: Grid, a: Grid, b: Grid, e: real)
    requires Swept(w, h, PressureCell, d, p, p) && SweptTimes(n, w, h, PressureCell, d, a, b) && Near(a, p, e)
    ensures Near(b, p, e)
  {
    if n > 0 {
      var m :| SweptTimes(n - 1, w, h, PressureCell, d, a, m) && Swept(w, h, PressureCell, d, m, b);
      RelaxingNoFarther(n - 1, w, h, d, p, a, m, e);
      forall k: nat | k < w * h ensures Abs(b[k] - p[k]) <= e {
        CellNoFarther(w, h, d, p, m, b, e, k);
      }
    }
  }

  // ---------------------------------------------------------------- advection

  /** A velocity of whole cells carries the value of the cell it comes from. */
  lemma AdvectsWholeCells(w: nat, h: nat, u: Grid, v: Grid, s: Grid, d0: Grid, x: nat, y: nat, i: int, j: int)
    requires |u| == |v| == |s| == |d0| == w * h && 1 <= x < w - 1 && 1 <= y < h - 1
    requires 1 <= x - i < w - 1 && 1 <= y - j < h - 1
    requires (InteriorCell(w, h, x, y); u[y * w + x] == i as real && v[y * w + x] == j as real)
    ensures 0 <= y * w + x < w * h && 0 <= (y - j) * w + (x - i) < w * h
    ensures AdvectedGrid(w, h, u, v, s, d0)[y * w + x] == s[(y - j) * w + (x - i)]
  {
    InteriorCell(w, h, x, y);
    InteriorCell(w, h, x - i, y - j);
    SampleOnCell(w, h, s, x - i, y - j);
  }

  lemma SampleOnCell(w: nat, h: nat, s: Grid, x: nat, y: nat)
    requires |s| == w * h && x + 1 < w && y + 1 < h
    ensures 0 <= y * w + x < w * h && Sample(w, h, s, x as real, y as real) == s[y * w + x]
  {
    CellIndex(w, h, x, y);
    SampleInRange(w, h, x as real, y as real);
    assert (x as real).Floor == x && (y as real).Floor == y;
    LerpStart(s[y * w + x], s[y * w + x + 1]);
    LerpStart(s[y * w + x + w], s[y * w + x + w + 1]);
    LerpStart(s[y * w + x], s[y * w + x + w]);
  }

  lemma LerpStart(a: real, b: real)
    ensures Lerp(a, b, 0.0) == a
  {
  }

  /** A field that rises evenly in both directions. */
  ghost predicate Even(w: nat, h: nat, s: Grid, a: real, b: real, c: real) {
    && |s| == w * h
    && forall x: nat, y: nat {:trigger EvenAt(w, s, a, b, c, x, y)} | x < w && y < h :: EvenAt(w, s, a, b, c, x, y)
  }

  ghost predicate EvenAt(w: nat, s: Grid, a: real, b: real, c: real, x: nat, y: nat) {
    0 <= y * w + x < |s| && s[y * w + x] == a + b * x as real + c * y as real
  }

  lemma LerpEven(a: real, b: real, x: real, t: real)
    ensures Lerp(a + b * x, a + b * (x + 1.0), t) == a + b * (x + t)
  {
    var y := b * x;
    assert b * (x + 1.0) == y + b && b * (x + t) == y + b * t;
    assert (a + y) * (1.0 - t) + (a + y + b) * t == a + y + b * t;
  }

  /** Of such a field a sample is what the field has at the point. */
  lemma SampleEven(w: nat, h: nat, s: Grid, a: real, b: real, c: real, px: real, py: real)
    requires Even(w, h, s, a, b, c) && w >= 2 && h >= 2
    requires 0.0 <= px < w as real - 1.0 && 0.0 <= py < h as real - 1.0
    ensures Sample(w, h, s, px, py) == a + b * px + c * py
  {
    SampleInRange(w, h, px, py);
    var i: nat, j: nat := px.Floor, py.Floor;
    FourCorners(w, h, s, a, b, c, i, j);
    var k := j * w + i;
    BilinearEven(a, b, c, i as real, j as real, px - i as real, py - j as real, s[k], s[k + 1], s[k + w], s[k + w + 1]);
  }

  lemma FourCorners(w: nat, h: nat, s: Grid, a: real, b: real, c: real, i: nat, j: nat)
    requires Even(w, h, s, a, b, c) && i + 1 < w && j + 1 < h
    ensures var k, x, y := j * w + i, i as real, j as real;
      && 0 <= k && k + w + 1 < |s|
      && s[k] == a + b * x + c * y && s[k + 1] == a + b * (x + 1.0) + c * y
      && s[k + w] == a + b * x + c * (y + 1.0) && s[k + w + 1] == a + b * (x + 1.0) + c * (y + 1.0)
  {
    assert EvenAt(w, s, a, b, c, i, j) && EvenAt(w, s, a, b, c, i + 1, j);
    assert EvenAt(w, s, a, b, c, i, j + 1) && EvenAt(w, s, a, b, c, i + 1, j + 1);
    assert (j + 1) * w == j * w + w;
    assert (i + 1) as real == i as real + 1.0 && (j + 1) as real == j as real + 1.0;
  }

  lemma BilinearEven(a: real, b: real, c: real, x: real, y: real, fx: real, fy: real,
                     s00: real, s10: real, s01: real, s11: real)
    requires s00 == a + b * x + c * y && s10 == a + b * (x + 1.0) + c * y
    requires s01 == a + b * x + c * (y + 1.0) && s11 == a + b * (x + 1.0) + c * (y + 1.0)
    ensures Lerp(Lerp(s00, s10, fx), Lerp(s01, s11, fx), fy) == a + b * (x + fx) + c * (y + fy)
  {
    LerpRow(a + c * y, b, x, fx, s00, s10);
    LerpRow(a + c * (y + 1.0), b, x, fx, s01, s11);
    LerpRow(a + b * (x + fx), c, y, fy, Lerp(s00, s10, fx), Lerp(s01, s11, fx));
  }

  lemma LerpRow(a: real, b: real, x: real, t: real, left: real, right: real)
    requires left == a + b * x && right == a + b * (x + 1.0)
    ensures Lerp(left, right, t) == a + b * (x + t)
  {
    LerpEven(a, b, x, t);
  }

  /** The place between 0.5 and the given end that is nearest to p. */
  function Kept(p: real, end: real): real {
    if p <= 0.5 then 0.5 else if p >= end then end else p
  }

  lemma AdvectedAt(w: nat, h: nat, u: Grid, v: Grid, s: Grid, d0: Grid, x: nat, y: nat, px: real, py: real)
    requires |u| == |v| == |s| == |d0| == w * h && 1 <= x < w - 1 && 1 <= y < h - 1
    requires (InteriorCell(w, h, x, y);
              && px == Kept(x as real - u[y * w + x], w as real - 1.5)
              && py == Kept(y as real - v[y * w + x], h as real - 1.5))
    ensures 0.5 <= px <= w as real - 1.5 && 0.5 <= py <= h as real - 1.5
    ensures 0 <= y * w + x < w * h && AdvectedGrid(w, h, u, v, s, d0)[y * w + x] == Sample(w, h, s, px, py)
  {
    InteriorCell(w, h, x, y);
  }

  /** So an even field is carried exactly, by any velocity, from the place it comes from
      or the place next to it that is half a cell off the border cells. */
  lemma AdvectsEven(w: nat, h: nat, u: Grid, v: Grid, s: Grid, d0: Grid, a: real, b: real, c: real,
                    x: nat, y: nat, px: real, py: real)
    requires |u| == |v| == |d0| == w * h && Even(w, h, s, a, b, c) && 1 <= x < w - 1 && 1 <= y < h - 1
    requires (InteriorCell(w, h, x, y);
              && px == Kept(x as real - u[y * w + x], w as real - 1.5)
              && py == Kept(y as real - v[y * w + x], h as real - 1.5))
    ensures 0 <= y * w + x < w * h && AdvectedGrid(w, h, u, v, s, d0)[y * w + x] == a + b * px + c * py
  {
    AdvectedAt(w, h, u, v, s, d0, x, y, px, py);
    SampleEven(w, h, s, a, b, c, px, py);
  }
}

/**
 The running fluid simulation of clients/smoke.c: two buffers of three grids,
 advanced one frame per redraw and stirred by pointer motion.
 */
module SmokeSolver {
  import opened Numbers
  import opened RowMajor
  import opened Smoke
  import opened SmokeFlow

  /** The six grids: density and velocity components of both buffers. */
  datatype State = State(d0: Grid, u0: Grid, v0: Grid, d1: Grid, u1: Grid, v1: Grid) {
    ghost predicate Valid(w: nat, h: nat) {
      && ZeroBorder(w, h, d0) && ZeroBorder(w, h, u0) && ZeroBorder(w, h, v0)
      && ZeroBorder(w, h, d1) && ZeroBorder(w, h, u1) && ZeroBorder(w, h, v1)
      && (forall k | 0 <= k < |d0| :: d0[k] >= 0.0)
      && (forall k | 0 <= k < |d1| :: d1[k] >= 0.0)
    }

    /** Both density grids lie between 0 and the bound. */
    ghost predicate DensityWithin(bound: real) {
      Within(0.0, bound, d0) && Within(0.0, bound, d1)
    }
  }

  // -------------------------------------------------------------------- frames

  /** The velocity half of a frame: diffuse, project, self-advect, project. */
  ghost predicate VelocityFrame(w: nat, h: nat, a: State, b: State) {
    exists u1, v1, u2, v2, p, div :: VelocitySteps(w, h, a, b, u1, v1, u2, v2, p, div)
  }

  ghost predicate VelocitySteps(w: nat, h: nat, a: State, b: State,
                                u1: Grid, v1: Grid, u2: Grid, v2: Grid, p: Grid, div: Grid) {
    && SweptTimes(5, w, h, DiffuseCell, a.u0, a.u1, u1)
    && SweptTimes(5, w, h, DiffuseCell, a.v0, a.v1, v1)
    && Projected(w, h, u1, v1, a.u0, a.v0, u2, v2, p, div)
    && |u2| == |v2| == |div| == w * h
    && Projected(w, h, AdvectedGrid(w, h, u2, v2, u2, p), AdvectedGrid(w, h, u2, v2, v2, div), u2, v2,
                 b.u0, b.v0, b.u1, b.v1)
  }

  /** The density half: diffuse, then advect along the new velocity. */
  ghost predicate DensityFrame(w: nat, h: nat, a: State, b: State) {
    && SweptTimes(5, w, h, DiffuseCell, a.d0, a.d1, b.d1)
    && |b.u0| == |b.v0| == |b.d1| == |a.d0| == w * h
    && b.d0 == AdvectedGrid(w, h, b.u0, b.v0, b.d1, a.d0)
  }

  ghost predicate Frame(w: nat, h: nat, a: State, b: State) {
    VelocityFrame(w, h, a, b) && DensityFrame(w, h, a, b)
  }

  lemma VelocityKeepsBorder(w: nat, h: nat, a: State, b: State)
    requires VelocityFrame(w, h, a, b) && a.Valid(w, h)
    ensures ZeroBorder(w, h, b.u0) && ZeroBorder(w, h, b.v0) && ZeroBorder(w, h, b.u1) && ZeroBorder(w, h, b.v1)
  {
    var u1, v1, u2, v2, p, div :| VelocitySteps(w, h, a, b, u1, v1, u2, v2, p, div);
    SweptTimesKeepsBorder(5, w, h, DiffuseCell, a.u0, a.u1, u1);
    SweptTimesKeepsBorder(5, w, h, DiffuseCell, a.v0, a.v1, v1);
    ProjectedKeepsBorder(w, h, u1, v1, a.u0, a.v0, u2, v2, p, div);
    ProjectedKeepsBorder(w, h, AdvectedGrid(w, h, u2, v2, u2, p), AdvectedGrid(w, h, u2, v2, v2, div), u2, v2,
                         b.u0, b.v0, b.u1, b.v1);
  }

  /** Maximum principle of a whole frame: the density bound shrinks by 0.995. */
  lemma DensityContracts(w: nat, h: nat, a: State, b: State, bound: real)
    requires DensityFrame(w, h, a, b) && a.Valid(w, h) && a.DensityWithin(bound) && bound >= 0.0
    ensures b.DensityWithin(0.995 * bound)
    ensures ZeroBorder(w, h, b.d0) && ZeroBorder(w, h, b.d1)
  {
    SweptTimesKeepsBorder(5, w, h, DiffuseCell, a.d0, a.d1, b.d1);
    DiffuseContracts(5, w, h, a.d0, a.d1, b.d1, bound);
    AdvectedWithin(w, h, b.u0, b.v0, b.d1, a.d0, 0.0, 0.995 * bound);
  }

  function Highest(g: Grid): (m: real)
    ensures m >= 0.0
    ensures forall k | 0 <= k < |g| :: g[k] <= m
  {
    if g == [] then 0.0
    else
      var m := Highest(g[1..]);
      assert forall k | 1 <= k < |g| :: g[k] == g[1..][k - 1];
      if g[0] > m then g[0] else m
  }

  lemma FrameKeepsValid(w: nat, h: nat, a: State, b: State)
    requires Frame(w, h, a, b) && a.Valid(w, h)
    ensures b.Valid(w, h)
  {
    VelocityKeepsBorder(w, h, a, b);
    var bound := Highest(a.d0) + Highest(a.d1);
    DensityContracts(w, h, a, b, bound);
  }

  /** A frame carries the diffused density along with the velocity it leaves. */
  lemma FrameCarriesDensity(w: nat, h: nat, a: State, b: State, x: nat, y: nat, i: int, j: int)
    requires DensityFrame(w, h, a, b) && 1 <= x < w - 1 && 1 <= y < h - 1
    requires 1 <= x - i < w - 1 && 1 <= y - j < h - 1
    requires (InteriorCell(w, h, x, y); b.u0[y * w + x] == i as real && b.v0[y * w + x] == j as real)
    ensures 0 <= y * w + x < |b.d0| && 0 <= (y - j) * w + (x - i) < |b.d1|
    ensures b.d0[y * w + x] == b.d1[(y - j) * w + (x - i)]
  {
    AdvectsWholeCells(w, h, b.u0, b.v0, b.d1, a.d0, x, y, i, j);
  }

  /** The bound after n frames: bound * 0.995^n. */
  function Damped(bound: real, n: nat): real {
    if n == 0 then bound else 0.995 * Damped(bound, n - 1)
  }

  /** A run of frames without input. */
  ghost predicate Run(w: nat, h: nat, states: seq<State>) {
    states != [] && forall i {:trigger states[i]} | 0 < i < |states| :: Frame(w, h, states[i - 1], states[i])
  }

  /** Over any run of frames without input the density decays geometrically. */
  lemma {:induction false} DensityDecays(w: nat, h: nat, states: seq<State>, bound: real)
    requires Run(w, h, states) && states[0].Valid(w, h) && states[0].DensityWithin(bound) && bound >= 0.0
    ensures states[|states| - 1].Valid(w, h)
    ensures states[|states| - 1].DensityWithin(Damped(bound, |states| - 1)) && Damped(bound, |states| - 1) >= 0.0
  {
    var n := |states| - 1;
    if n > 0 {
      var before, a, b := states[..n], states[n - 1], states[n];
      assert Run(w, h, before);
      DensityDecays(w, h, before, bound);
      FrameKeepsValid(w, h, a, b);
      DensityContracts(w, h, a, b, Damped(bound, n - 1));
    }
  }

  // -------------------------------------------------------------------- motion

  /** First and past-the-last row or column touched by a pointer at p. */
  function BrushStart(p: real): int {
    if p - 5.0 < 1.0 then 1 else (p - 5.0).Floor
  }

  function BrushEnd(p: real, size: nat): int {
    if BrushStart(p) + 10 > size - 1 then size - 1 else BrushStart(p) + 10
  }

  predicate Brushed(w: nat, h: nat, x: real, y: real, k: nat)
    requires w > 0
  {
    BrushStart(x) <= k % w < BrushEnd(x, w) && BrushStart(y) <= k / w < BrushEnd(y, h)
  }

  lemma BrushIsInterior(w: nat, h: nat, x: real, y: real, k: nat)
    requires w > 0 && k < w * h && Brushed(w, h, x, y, k)
    ensures Interior(w, h, k)
  {
  }

  /** Velocity kick for the bit that random() & 512 leaves. */
  function Kick(bit: bool): real {
    if bit then -256.0 else 256.0
  }

  /** The state after a pointer moved to (x, y); bits are the random numbers drawn. */
  ghost predicate Stirred(w: nat, h: nat, a: State, b: State, x: real, y: real, bits: nat -> (bool, bool))
    requires w > 0
  {
    && SameShape(w, h, a, b)
    && forall k: nat {:trigger StirredCell(a, b, bits, k, Brushed(w, h, x, y, k))} | k < w * h ::
         StirredCell(a, b, bits, k, Brushed(w, h, x, y, k))
  }

  ghost predicate SameShape(w: nat, h: nat, a: State, b: State) {
    && |a.d0| == |a.u0| == |a.v0| == |b.d0| == |b.u0| == |b.v0| == w * h
    && b.d1 == a.d1 && b.u1 == a.u1 && b.v1 == a.v1
  }

  ghost predicate StirredCell(a: State, b: State, bits: nat -> (bool, bool), k: nat, brushed: bool)
    requires k < |a.d0| == |a.u0| == |a.v0| == |b.d0| == |b.u0| == |b.v0|
  {
    if brushed then
      b.u0[k] == a.u0[k] + Kick(bits(k).0) && b.v0[k] == a.v0[k] + Kick(bits(k).1) && b.d0[k] == a.d0[k] + 1.0
    else
      b.u0[k] == a.u0[k] && b.v0[k] == a.v0[k] && b.d0[k] == a.d0[k]
  }

  lemma StirredKeepsValid(w: nat, h: nat, a: State, b: State, x: real, y: real, bits: nat -> (bool, bool), bound: real)
    requires w > 0 && Stirred(w, h, a, b, x, y, bits) && a.Valid(w, h)
    ensures b.Valid(w, h)
    ensures a.DensityWithin(bound) ==> b.DensityWithin(bound + 1.0)
  {
    forall k: nat | k < w * h
      ensures StirredCell(a, b, bits, k, Brushed(w, h, x, y, k))
      ensures Brushed(w, h, x, y, k) ==> Interior(w, h, k)
    {
      if Brushed(w, h, x, y, k) {
        BrushIsInterior(w, h, x, y, k);
      }
    }
  }

  /** A row or column is under the brush when it is within four cells of the pointer, and
      is not when it is six cells before or, but for the first ten, five behind it. */
  lemma BrushSpan(p: real, size: nat, c: nat)
    requires 1 <= c < size - 1
    ensures p - 4.0 <= c as real <= p + 4.0 ==> BrushStart(p) <= c < BrushEnd(p, size)
    ensures Away(p, c) ==> !(BrushStart(p) <= c < BrushEnd(p, size))
  {
  }

  predicate Away(p: real, c: nat) {
    c as real <= p - 6.0 || (c >= 11 && c as real >= p + 5.0)
  }

  /** What a motion does near the pointer and away from it. */
  lemma StirredNear(w: nat, h: nat, a: State, b: State, x: real, y: real, bits: nat -> (bool, bool), i: nat, j: nat)
    requires w > 0 && Stirred(w, h, a, b, x, y, bits) && 1 <= i < w - 1 && 1 <= j < h - 1
    ensures 0 <= j * w + i < w * h
    ensures Abs(x - i as real) <= 4.0 && Abs(y - j as real) <= 4.0 ==>
      var k := j * w + i;
      b.d0[k] == a.d0[k] + 1.0 && Abs(b.u0[k] - a.u0[k]) == 256.0 && Abs(b.v0[k] - a.v0[k]) == 256.0
    ensures Away(x, i) || Away(y, j) ==>
      var k := j * w + i; b.d0[k] == a.d0[k] && b.u0[k] == a.u0[k] && b.v0[k] == a.v0[k]
  {
    var k: nat := j * w + i;
    CellIndex(w, h, i, j);
    BrushSpan(x, w, i);
    BrushSpan(y, h, j);
    assert StirredCell(a, b, bits, k, Brushed(w, h, x, y, k));
  }

  // ------------------------------------------------------------- frames and motions

  /** What happens next: a frame is drawn, or the pointer moves. */
  datatype Moment = Tick | Moved(x: real, y: real, bits: nat -> (bool, bool))

  ghost predicate Passed(w: nat, h: nat, a: State, b: State, m: Moment)
    requires w > 0
  {
    match m
    case Tick => Frame(w, h, a, b)
    case Moved(x, y, bits) => Stirred(w, h, a, b, x, y, bits)
  }

  ghost predicate LongRun(w: nat, h: nat, states: seq<State>, moments: seq<Moment>)
    requires w > 0
  {
    && |states| == |moments| + 1
    && forall i {:trigger moments[i]} | 0 <= i < |moments| :: Passed(w, h, states[i], states[i + 1], moments[i])
  }

  /** A frame takes 0.5 % off the highest density, a motion adds 1. */
  function BoundAfter(bound: real, moments: seq<Moment>): real {
    if moments == [] then bound
    else
      var b := BoundAfter(bound, moments[..|moments| - 1]);
      if moments[|moments| - 1].Tick? then 0.995 * b else b + 1.0
  }

  /** In every reachable state the borders are zero, and the density is within a bound
      that the events so far determine. */
  lemma {:induction false} ReachableValid(w: nat, h: nat, states: seq<State>, moments: seq<Moment>, bound: real)
    requires w > 0 && LongRun(w, h, states, moments)
    requires states[0].Valid(w, h) && states[0].DensityWithin(bound) && bound >= 0.0
    ensures states[|moments|].Valid(w, h)
    ensures states[|moments|].DensityWithin(BoundAfter(bound, moments)) && BoundAfter(bound, moments) >= 0.0
  {
    var n := |moments|;
    if n > 0 {
      var most := moments[..n - 1];
      assert LongRun(w, h, states[..n], most) by {
        assert forall i {:trigger most[i]} | 0 <= i < n - 1 :: most[i] == moments[i];
      }
      ReachableValid(w, h, states[..n], most, bound);
      assert Passed(w, h, states[n - 1], states[n], moments[n - 1]);
      PassedKeepsValid(w, h, states[n - 1], states[n], moments[n - 1], BoundAfter(bound, most));
    }
  }

  lemma PassedKeepsValid(w: nat, h: nat, a: State, b: State, m: Moment, bound: real)
    requires w > 0 && Passed(w, h, a, b, m) && a.Valid(w, h) && a.DensityWithin(bound) && bound >= 0.0
    ensures b.Valid(w, h) && b.DensityWithin(if m.Tick? then 0.995 * bound else bound + 1.0)
  {
    match m
    case Tick =>
      FrameKeepsValid(w, h, a, b);
      DensityContracts(w, h, a, b, bound);
    case Moved(x, y, bits) =>
      StirredKeepsValid(w, h, a, b, x, y, bits, bound);
  }

  /** Stirring at most once a frame keeps the bound below 201. */
  lemma {:induction false} SteadyBound(bound: real, moments: seq<Moment>)
    requires 0.0 <= bound <= 200.0
    requires forall i | 0 <= i < |moments| - 1 :: moments[i].Tick? || moments[i + 1].Tick?
    ensures BoundAfter(bound, moments) <= if moments == [] || moments[|moments| - 1].Tick? then 200.0 else 201.0
    ensures 0.0 <= BoundAfter(bound, moments)
  {
    if moments != [] {
      var n := |moments|;
      SteadyBound(bound, moments[..n - 1]);
      assert n > 1 ==> moments[n - 2].Tick? || moments[n - 1].Tick?;
    }
  }

  /** Stirred at most once a frame, forever, no density exceeds 201, nor 200 right
      after a frame. */
  lemma SteadyDensity(w: nat, h: nat, states: seq<State>, moments: seq<Moment>)
    requires w > 0 && LongRun(w, h, states, moments)
    requires states[0].Valid(w, h) && states[0].DensityWithin(200.0)
    requires forall i | 0 <= i < |moments| - 1 :: moments[i].Tick? || moments[i + 1].Tick?
    ensures states[|moments|].DensityWithin(201.0)
    ensures moments != [] && moments[|moments| - 1].Tick? ==> states[|moments|].DensityWithin(200.0)
  {
    ReachableValid(w, h, states, moments, 200.0);
    SteadyBound(200.0, moments);
  }

  /** The brush has covered its columns left of i, and its column i above row j. */
  ghost predicate StirredUpTo(w: nat, h: nat, a: State, b: State, x: real, y: real, bits: nat -> (bool, bool),
                              i: int, j: int)
    requires w > 0
  {
    && SameShape(w, h, a, b)
    && forall k: nat {:trigger StirredCell(a, b, bits, k, Covered(w, h, x, y, k, i, j))} | k < w * h ::
         StirredCell(a, b, bits, k, Covered(w, h, x, y, k, i, j))
  }

  predicate Covered(w: nat, h: nat, x: real, y: real, k: nat, i: int, j: int)
    requires w > 0
  {
    Brushed(w, h, x, y, k) && (k % w < i || (k % w == i && k / w < j))
  }

  lemma CoveredStep(w: nat, h: nat, x: real, y: real, k: nat, i: nat, j: nat)
    requires w > 0 && k < w * h && 0 <= j * w + i < w * h && i < w && j < h
    requires BrushStart(x) <= i < BrushEnd(x, w) && BrushStart(y) <= j < BrushEnd(y, h)
    ensures Covered(w, h, x, y, k, i, j + 1) <==> Covered(w, h, x, y, k, i, j) || k == j * w + i
    ensures k == j * w + i ==> !Covered(w, h, x, y, k, i, j)
  {
    CellIff(w, h, i, j, k);
  }

  lemma StirStep(w: nat, h: nat, a: State, b: State, b': State, x: real, y: real, bits: nat -> (bool, bool),
                 i: nat, j: nat)
    requires w > 0 && StirredUpTo(w, h, a, b, x, y, bits, i, j)
    requires BrushStart(x) <= i < BrushEnd(x, w) && BrushStart(y) <= j < BrushEnd(y, h)
    requires 0 <= j * w + i < w * h && b'.d1 == b.d1 && b'.u1 == b.u1 && b'.v1 == b.v1
    requires
      var k := j * w + i;
      && b'.u0 == b.u0[k := b.u0[k] + Kick(bits(k).0)]
      && b'.v0 == b.v0[k := b.v0[k] + Kick(bits(k).1)]
      && b'.d0 == b.d0[k := b.d0[k] + 1.0]
    ensures StirredUpTo(w, h, a, b', x, y, bits, i, j + 1)
  {
    forall k: nat {:trigger StirredCell(a, b', bits, k, Covered(w, h, x, y, k, i, j + 1))} | k < w * h
      ensures StirredCell(a, b', bits, k, Covered(w, h, x, y, k, i, j + 1))
    {
      CoveredStep(w, h, x, y, k, i, j);
      assert StirredCell(a, b, bits, k, Covered(w, h, x, y, k, i, j));
    }
  }

  lemma StirNextColumn(w: nat, h: nat, a: State, b: State, x: real, y: real, bits: nat -> (bool, bool), i: nat, j: int)
    requires w > 0 && StirredUpTo(w, h, a, b, x, y, bits, i, j) && j >= BrushEnd(y, h)
    ensures StirredUpTo(w, h, a, b, x, y, bits, i + 1, BrushStart(y))
  {
    forall k: nat {:trigger StirredCell(a, b, bits, k, Covered(w, h, x, y, k, i + 1, BrushStart(y)))} | k < w * h
      ensures StirredCell(a, b, bits, k, Covered(w, h, x, y, k, i + 1, BrushStart(y)))
    {
      assert StirredCell(a, b, bits, k, Covered(w, h, x, y, k, i, j));
    }
  }

  // -------------------------------------------------------------------- solver

  method Calloc(n: nat) returns (g: array<real>)
    ensures fresh(g) && g.Length == n && forall k | 0 <= k < n :: g[k] == 0.0
  {
    g := new real[n](_ => 0.0);
  }

  class Solver {
    const width: nat
    const height: nat
    const cut: Cut
    const d0: array<real>
    const u0: array<real>
    const v0: array<real>
    const d1: array<real>
    const u1: array<real>
    const v1: array<real>

    ghost predicate Shape() {
      && d0.Length == u0.Length == v0.Length == d1.Length == u1.Length == v1.Length == width * height
      && d0 != u0 && d0 != v0 && d0 != d1 && d0 != u1 && d0 != v1
      && u0 != v0 && u0 != d1 && u0 != u1 && u0 != v1
      && v0 != d1 && v0 != u1 && v0 != v1
      && d1 != u1 && d1 != v1 && u1 != v1
    }

    ghost function Current(): State
      reads d0, u0, v0, d1, u1, v1
    {
      State(d0[..], u0[..], v0[..], d1[..], u1[..], v1[..])
    }

    ghost predicate Valid()
      reads d0, u0, v0, d1, u1, v1
    {
      Shape() && Current().Valid(width, height)
    }

    /** All grids are allocated cleared. */
    constructor (width: nat, height: nat, cut: Cut)
      ensures this.width == width && this.height == height && this.cut == cut
      ensures Valid() && Current().DensityWithin(0.0)
      ensures fresh(d0) && fresh(u0) && fresh(v0) && fresh(d1) && fresh(u1) && fresh(v1)
    {
      this.width, this.height, this.cut := width, height, cut;
      var cd0 := Calloc(width * height);
      var cu0 := Calloc(width * height);
      var cv0 := Calloc(width * height);
      var cd1 := Calloc(width * height);
      var cu1 := Calloc(width * height);
      var cv1 := Calloc(width * height);
      d0, u0, v0, d1, u1, v1 := cd0, cu0, cv0, cd1, cu1, cv1;
    }

    method AdvanceVelocity()
      requires Shape()
      modifies u0, v0, u1, v1
      ensures VelocityFrame(width, height, old(Current()), Current())
    {
      Diffuse(width, height, u0, u1);
      Diffuse(width, height, v0, v1);
      ghost var du, dv := u1[..], v1[..];
      Project(width, height, cut, u1, v1, u0, v0);
      ghost var pu, pv, p, div := u1[..], v1[..], u0[..], v0[..];
      Advect(width, height, u1, v1, u1, u0);
      Advect(width, height, u1, v1, v1, v0);
      Project(width, height, cut, u0, v0, u1, v1);
      assert VelocitySteps(width, height, old(Current()), Current(), du, dv, pu, pv, p, div);
    }

    method AdvanceDensity()
      requires Shape()
      modifies d0, d1
      ensures DensityFrame(width, height, old(Current()), Current())
    {
      Diffuse(width, height, d0, d1);
      Advect(width, height, u0, v0, d1, d0);
    }

    /** One frame. */
    method Redraw()
      requires Valid()
      modifies d0, u0, v0, d1, u1, v1
      ensures Valid() && Frame(width, height, old(Current()), Current())
      ensures forall bound: real | bound >= 0.0 && old(Current().DensityWithin(bound)) ::
        Current().DensityWithin(0.995 * bound)
    {
      ghost var a := Current();
      AdvanceVelocity();
      ghost var m := Current();
      AdvanceDensity();
      ghost var b := Current();
      VelocityFrameSame(width, height, a, m, b);
      FrameKeepsValid(width, height, a, b);
      forall bound: real | bound >= 0.0 && a.DensityWithin(bound) ensures b.DensityWithin(0.995 * bound) {
        DensityContracts(width, height, a, b, bound);
      }
    }

    method StirColumn(x: real, y: real, bits: nat -> (bool, bool), i: nat, j0: nat, j1: int, ghost a: State)
      requires Shape() && width > 0 && j0 == BrushStart(y) && j1 == BrushEnd(y, height)
      requires BrushStart(x) <= i < BrushEnd(x, width) && StirredUpTo(width, height, a, Current(), x, y, bits, i, j0)
      modifies d0, u0, v0
      ensures StirredUpTo(width, height, a, Current(), x, y, bits, i + 1, j0)
    {
      var j := j0;
      while j < j1
        invariant j0 <= j && (j <= j1 || j == j0)
        invariant StirredUpTo(width, height, a, Current(), x, y, bits, i, j)
      {
        ghost var b := Current();
        var k := j * width + i;
        CellIndex(width, height, i, j);
        u0[k] := u0[k] + Kick(bits(k).0);
        v0[k] := v0[k] + Kick(bits(k).1);
        d0[k] := d0[k] + 1.0;
        StirStep(width, height, a, b, Current(), x, y, bits, i, j);
        j := j + 1;
      }
      StirNextColumn(width, height, a, Current(), x, y, bits, i, j);
    }

    /** Pointer or touch motion: kick the velocity and add density under a brush. */
    method Motion(x: real, y: real, bits: nat -> (bool, bool))
      requires Valid() && width > 0
      modifies d0, u0, v0
      ensures Valid() && Stirred(width, height, old(Current()), Current(), x, y, bits)
    {
      ghost var a := Current();
      var i0 := if x - 5.0 < 1.0 then 1 else (x - 5.0).Floor;
      var i1 := if i0 + 10 > width - 1 then width - 1 else i0 + 10;
      var j0 := if y - 5.0 < 1.0 then 1 else (y - 5.0).Floor;
      var j1 := if j0 + 10 > height - 1 then height - 1 else j0 + 10;
      var i := i0;
      while i < i1
        invariant i0 <= i && (i <= i1 || i == i0)
        invariant StirredUpTo(width, height, a, Current(), x, y, bits, i, j0)
      {
        StirColumn(x, y, bits, i, j0, j1, a);
        i := i + 1;
      }
      StirredAll(width, height, a, Current(), x, y, bits, i);
      StirredKeepsValid(width, height, a, Current(), x, y, bits, 0.0);
    }
  }

  lemma StirredAll(w: nat, h: nat, a: State, b: State, x: real, y: real, bits: nat -> (bool, bool), i: nat)
    requires w > 0 && StirredUpTo(w, h, a, b, x, y, bits, i, BrushStart(y)) && i >= BrushEnd(x, w)
    ensures Stirred(w, h, a, b, x, y, bits)
  {
    forall k: nat {:trigger StirredCell(a, b, bits, k, Brushed(w, h, x, y, k))} | k < w * h
      ensures StirredCell(a, b, bits, k, Brushed(w, h, x, y, k))
    {
      assert StirredCell(a, b, bits, k, Covered(w, h, x, y, k, i, BrushStart(y)));
    }
  }

  lemma VelocityFrameSame(w: nat, h: nat, a: State, m: State, b: State)
    requires VelocityFrame(w, h, a, m) && DensityFrame(w, h, m, b)
    requires b.u0 == m.u0 && b.v0 == m.v0 && b.u1 == m.u1 && b.v1 == m.v1 && m.d0 == a.d0 && m.d1 == a.d1
    ensures Frame(w, h, a, b)
  {
    var u1, v1, u2, v2, p, div :| VelocitySteps(w, h, a, m, u1, v1, u2, v2, p, div);
    assert VelocitySteps(w, h, a, b, u1, v1, u2, v2, p, div);
  }
}

/**
 The resizing window of clients/resizor.c: width and height follow springs, one step
 a frame, until both have come to rest.
 */
module Resizor {
  import opened Numbers

  datatype Spring = Spring(current: real, target: real, previous: real)

  function Updated(s: Spring): Spring {
    var force := (s.target - s.current) / 20.0 + (s.previous - s.current);
    Spring(s.current + (s.current - s.previous) + force, s.target, s.current)
  }

  predicate Done(s: Spring) {
    Abs(s.previous - s.target) < 0.1
  }

  function Distance(s: Spring): real {
    s.target - s.current
  }

  /** The momentum cancels: a step covers a twentieth of the way, and previous is where
      the spring was. */
  lemma StepCoversATwentieth(s: Spring)
    ensures Distance(Updated(s)) == Distance(s) * 19.0 / 20.0
    ensures Updated(s).previous == s.current && Updated(s).target == s.target
  {
  }

  function After(s: Spring, n: nat): Spring {
    if n == 0 then s else Updated(After(s, n - 1))
  }

  /** (19/20)^n. */
  function Decay(n: nat): (d: real)
    ensures 0.0 < d <= 1.0
  {
    if n == 0 then 1.0 else Decay(n - 1) * 19.0 / 20.0
  }

  lemma {:induction false} DistanceDecays(s: Spring, n: nat)
    ensures Distance(After(s, n)) == Decay(n) * Distance(s)
    ensures After(s, n).target == s.target
  {
    if n > 0 {
      DistanceDecays(s, n - 1);
      StepCoversATwentieth(After(s, n - 1));
    }
  }

  /** The spring stays on its side of the target, and never moves away from it. */
  lemma NoOvershoot(s: Spring, n: nat)
    ensures s.current <= s.target ==> s.current <= After(s, n).current <= s.target
    ensures s.current >= s.target ==> s.current >= After(s, n).current >= s.target
  {
    DistanceDecays(s, n);
    var d, k := Distance(s), Decay(n);
    if d >= 0.0 {
      assert 0.0 <= k * d <= d;
    } else {
      assert (1.0 - k) * d <= 0.0 && k * d <= 0.0;
    }
  }

  /** How far a spring is from its target after n steps. */
  function Remaining(s: Spring, n: nat): real {
    Decay(n) * Abs(Distance(s))
  }

  lemma RemainingDistance(s: Spring, n: nat)
    ensures Abs(Distance(After(s, n))) == Remaining(s, n)
  {
    DistanceDecays(s, n);
    AbsScaled(Decay(n), Distance(s));
  }

  lemma AbsScaled(k: real, d: real)
    requires k >= 0.0
    ensures Abs(k * d) == k * Abs(d)
  {
    if d >= 0.0 {
      assert k * d >= 0.0;
    } else {
      assert k * -d == -(k * d) && k * -d >= 0.0;
    }
  }

  lemma DoneAfterStep(t: Spring)
    ensures Done(Updated(t)) <==> Abs(Distance(t)) < 0.1
  {
    StepCoversATwentieth(t);
  }

  /** After n steps a spring is at rest exactly when the step before had come close. */
  lemma DoneIff(s: Spring, n: nat)
    requires n > 0
    ensures Done(After(s, n)) <==> Remaining(s, n - 1) < 0.1
  {
    RemainingDistance(s, n - 1);
    DoneAfterStep(After(s, n - 1));
  }

  // --------------------------------------------------------------- coming to rest

  /** Bernoulli's inequality for 20/19, turned over. */
  lemma {:induction false} DecayBound(n: nat)
    ensures Decay(n) * (19.0 + n as real) <= 19.0
  {
    if n > 0 {
      DecayBound(n - 1);
      var d, m := Decay(n - 1), (n - 1) as real;
      assert n as real == m + 1.0;
      assert d * 19.0 / 20.0 * (20.0 + m) == d * (19.0 + m * 19.0 / 20.0);
      assert d * (19.0 + m * 19.0 / 20.0) <= d * (19.0 + m) by {
        assert d * (m / 20.0) >= 0.0;
      }
    }
  }

  /** A number of frames by which a spring at this distance is at rest. */
  function FramesFor(distance: real): (n: nat)
    requires distance >= 0.0
    ensures n > 0 && n as real > 190.0 * distance
  {
    (190.0 * distance).Floor + 1
  }

  lemma RestsWithin(s: Spring, n: nat)
    requires n >= FramesFor(Abs(Distance(s)))
    ensures Done(After(s, n))
  {
    DecayBound(n - 1);
    assert (n - 1) as real == n as real - 1.0;
    RestBound(Abs(Distance(s)), Decay(n - 1), 18.0 + n as real);
    DoneIff(s, n);
  }

  lemma ProductPositive(a: real, b: real)
    requires a > 0.0 && b > 0.0
    ensures a * b > 0.0
  {
  }

  lemma RestBound(e: real, d: real, m: real)
    requires 0.0 <= e && 0.0 < d && d * m <= 19.0 && 190.0 * e < m
    ensures d * e < 0.1
  {
    var p, q := d * e, d * m;
    assert d * (m - 190.0 * e) == q - 190.0 * p;
    ProductPositive(d, m - 190.0 * e);
    assert 190.0 * p < 19.0;
  }

  // ---------------------------------------------------------------------- the window

  datatype State = State(width: Spring, height: Spring, scheduled: bool)

  /** One frame callback. */
  function Frame(s: State, maximized: bool): State {
    if maximized then s.(scheduled := false)
    else
      var width, height := Updated(s.width), Updated(s.height);
      State(width, height, !Done(width) || !Done(height))
  }

  function Frames(s: State, n: nat): State {
    if n == 0 then s else Frame(Frames(s, n - 1), false)
  }

  lemma {:induction false} FramesAreSteps(s: State, n: nat)
    ensures Frames(s, n).width == After(s.width, n) && Frames(s, n).height == After(s.height, n)
  {
    if n > 0 {
      FramesAreSteps(s, n - 1);
    }
  }

  /** The frame after which no further one is asked for: exactly when both distances
      had come within a tenth ... */
  lemma ScheduledIff(s: State, n: nat)
    requires n > 0
    ensures Frames(s, n).scheduled <==>
      Remaining(s.width, n - 1) >= 0.1 || Remaining(s.height, n - 1) >= 0.1
  {
    FramesAreSteps(s, n - 1);
    DoneIff(s.width, n);
    DoneIff(s.height, n);
    assert Frames(s, n).scheduled == (!Done(After(s.width, n)) || !Done(After(s.height, n)));
  }

  /** ... which happens within a number of frames known beforehand. */
  lemma AnimationStops(s: State, n: nat)
    requires n >= Max(FramesFor(Abs(Distance(s.width))), FramesFor(Abs(Distance(s.height))))
    ensures !Frames(s, n).scheduled
  {
    FramesAreSteps(s, n - 1);
    RestsWithin(s.width, n);
    RestsWithin(s.height, n);
  }

  datatype Key = Up | Down | Left | Right | Other

  class ResizorWindow {
    var width: Spring
    var height: Spring
    /** A frame callback is waited for. */
    var frame_callback: bool

    function Value(): State
      reads this
    {
      State(width, height, frame_callback)
    }

    constructor (width: real, height: real)
      ensures Value() == State(Spring(width, width, width), Spring(height, height, height), false)
    {
      this.width, this.height, frame_callback := Spring(width, width, width), Spring(height, height, height), false;
    }

    static method UpdateSpring(s: Spring) returns (r: Spring)
      ensures r == Updated(s)
    {
      var current := s.current;
      var force := (s.target - current) / 20.0 + (s.previous - current);
      r := s.(current := current + (current - s.previous) + force);
      r := r.(previous := current);
    }

    method FrameCallback(maximized: bool)
      modifies this
      ensures Value() == Frame(old(Value()), maximized)
    {
      frame_callback := false;
      if maximized {
        return;
      }
      width := UpdateSpring(width);
      height := UpdateSpring(height);
      if !Done(width) || !Done(height) {
        frame_callback := true;
      }
    }

    /** A key moves a target by 200, unless the window is at its least or greatest; a
        spring that is not at rest keeps its old target otherwise. */
    method PressKey(key: Key, w: int, h: int, maximized: bool)
      modifies this
      ensures
        var was := old(Value());
        var toward := Toward(was, key, w, h);
        Value() == if was.scheduled then toward else Frame(toward, maximized)
    {
      width := width.(current := w as real);
      if Done(width) {
        width := width.(target := w as real);
      }
      height := height.(current := h as real);
      if Done(height) {
        height := height.(target := h as real);
      }
      match key {
        case Up => if h >= 400 { height := height.(target := (h - 200) as real); }
        case Down => if h <= 1000 { height := height.(target := (h + 200) as real); }
        case Left => if w >= 400 { width := width.(target := (w - 200) as real); }
        case Right => if w <= 1000 { width := width.(target := (w + 200) as real); }
        case Other =>
      }
      if !frame_callback {
        FrameCallback(maximized);
      }
    }
  }

  /** The springs a key press leaves, for a window of the given size. */
  function Toward(s: State, key: Key, w: int, h: int): State {
    var width := Spring(w as real, if Done(s.width) then w as real else s.width.target, s.width.previous);
    var height := Spring(h as real, if Done(s.height) then h as real else s.height.target, s.height.previous);
    match key
    case Up => s.(width := width, height := if h < 400 then height else height.(target := (h - 200) as real))
    case Down => s.(width := width, height := if h > 1000 then height else height.(target := (h + 200) as real))
    case Left => s.(height := height, width := if w < 400 then width else width.(target := (w - 200) as real))
    case Right => s.(height := height, width := if w > 1000 then width else width.(target := (w + 200) as real))
    case Other => s.(width := width, height := height)
  }

  // ----------------------------------------------------- a key press, frame by frame

  lemma {:induction false} DecayAdds(m: nat, n: nat)
    ensures Decay(m + n) == Decay(m) * Decay(n)
  {
    if n > 0 {
      DecayAdds(m, n - 1);
    }
  }

  lemma DecayFalls(m: nat, n: nat)
    requires m <= n
    ensures Decay(n) <= Decay(m)
  {
    var d, k := Decay(m), Decay(n - m);
    DecayAdds(m, n - m);
    assert (1.0 - k) * d >= 0.0;
  }

  ghost predicate DecayBetween(n: nat, lo: real, hi: real) {
    0.0 <= lo <= Decay(n) <= hi
  }

  lemma ProductBetween(a: real, x: real, b: real, c: real, y: real, d: real)
    requires 0.0 <= a <= x <= b && 0.0 <= c <= y <= d
    ensures a * c <= x * y <= b * d
  {
    var p, q, r, t := x - a, y - c, b - x, d - y;
    assert p * y >= 0.0 && a * q >= 0.0 && r * y >= 0.0 && b * t >= 0.0;
    assert x * y == a * y + p * y && a * y == a * c + a * q;
    assert b * d == b * y + b * t && b * y == x * y + r * y;
  }

  lemma BetweenProducts(m: nat, n: nat, a: real, b: real, c: real, d: real, lo: real, hi: real)
    requires DecayBetween(m, a, b) && DecayBetween(n, c, d) && 0.0 <= lo <= a * c && b * d <= hi
    ensures DecayBetween(m + n, lo, hi)
  {
    DecayAdds(m, n);
    ProductBetween(a, Decay(m), b, c, Decay(n), d);
  }

  lemma DecayPowers(one: nat)
    requires one == 1
    ensures DecayBetween(4 * one, 0.8145, 0.81451) && DecayBetween(16 * one, 0.44, 0.44014)
  {
    BetweenProducts(0, one, 1.0, 1.0, 0.95, 0.95, 0.95, 0.95);
    BetweenProducts(one, one, 0.95, 0.95, 0.95, 0.95, 0.9025, 0.9025);
    BetweenProducts(2 * one, 2 * one, 0.9025, 0.9025, 0.9025, 0.9025, 0.8145, 0.81451);
    BetweenProducts(4 * one, 4 * one, 0.8145, 0.81451, 0.8145, 0.81451, 0.6634, 0.66343);
    BetweenProducts(8 * one, 8 * one, 0.6634, 0.66343, 0.6634, 0.66343, 0.44, 0.44014);
  }

  /** Halving the exponent again and again: 148 is 128 + 16 + 4. */
  lemma Decay148(one: nat)
    requires one == 1
    ensures DecayBetween(148 * one, 0.0005, 0.000506)
  {
    DecayPowers(one);
    BetweenProducts(16 * one, 16 * one, 0.44, 0.44014, 0.44, 0.44014, 0.1936, 0.19373);
    BetweenProducts(32 * one, 32 * one, 0.1936, 0.19373, 0.1936, 0.19373, 0.03748, 0.03754);
    BetweenProducts(64 * one, 64 * one, 0.03748, 0.03754, 0.03748, 0.03754, 0.001404, 0.00141);
    BetweenProducts(128 * one, 16 * one, 0.001404, 0.00141, 0.44, 0.44014, 0.000617, 0.000621);
    BetweenProducts(144 * one, 4 * one, 0.000617, 0.000621, 0.8145, 0.81451, 0.0005, 0.000506);
  }

  lemma DecayIff(n: nat)
    ensures Decay(n) * 200.0 >= 0.1 <==> n < 149
  {
    // named, so that no power is computed step by step
    var most: nat :| most == 148;
    Decay148(most - 147);
    if n <= most {
      DecayFalls(n, most);
    } else {
      DecayFalls(most + 1, n);
    }
  }

  lemma {:induction false} FramesFromNext(s: State, n: nat)
    ensures Frames(Frame(s, false), n) == Frames(s, n + 1)
  {
    if n > 0 {
      FramesFromNext(s, n - 1);
    }
  }

  /** How far a key moves the targets of a window of the given size. */
  function Steps(key: Key, w: int, h: int): (int, int) {
    match key
    case Up => (0, if h < 400 then 0 else -200)
    case Down => (0, if h > 1000 then 0 else 200)
    case Left => (if w < 400 then 0 else -200, 0)
    case Right => (if w > 1000 then 0 else 200, 0)
    case Other => (0, 0)
  }

  /** n steps of a spring that starts at one whole number, for another one. */
  ghost predicate Approaches(s: Spring, start: int, step: int, n: nat) {
    && s.target == (start + step) as real
    && Distance(s) == Decay(n) * step as real
    && if step < 0 then s.target < s.current <= start as real else start as real <= s.current <= s.target
  }

  lemma SpringApproaches(s: Spring, start: int, step: int, n: nat)
    requires s.current == start as real && s.target == (start + step) as real
    ensures Approaches(After(s, n), start, step, n)
  {
    DistanceDecays(s, n);
    NoOvershoot(s, n);
    assert Distance(s) == step as real;
    if step < 0 {
      ProductPositive(Decay(n), -(step as real));
      assert Decay(n) * -(step as real) == -(Decay(n) * step as real);
    }
  }

  lemma RestingSteps(s: Spring, n: nat)
    requires Distance(s) in {0.0, 200.0, -200.0}
    ensures Remaining(s, n) >= 0.1 <==> Distance(s) != 0.0 && n < 149
  {
    DecayIff(n);
  }

  /** A key pressed in a window at rest draws one frame at once; the frames after it
      bring the size towards its new target by a twentieth of the way each, without
      passing it, and exactly 149 of them are asked for. */
  lemma KeyReachesTarget(s: State, key: Key, w: int, h: int, n: nat)
    requires Done(s.width) && Done(s.height)
    ensures
      var (dw, dh) := Steps(key, w, h);
      var pressed := Frame(Toward(s, key, w, h), false);
      var later := Frames(pressed, n);
      && Approaches(later.width, w, dw, n + 1) && Approaches(later.height, h, dh, n + 1)
      && (later.scheduled <==> (dw, dh) != (0, 0) && n < 149)
  {
    var (dw, dh) := Steps(key, w, h);
    var toward := Toward(s, key, w, h);
    FramesFromNext(toward, n);
    FramesAreSteps(toward, n + 1);
    SpringApproaches(toward.width, w, dw, n + 1);
    SpringApproaches(toward.height, h, dh, n + 1);
    PressedScheduledIff(toward, n);
  }

  /** An axis that a key does not move aims at the size it has when it was at rest, and
      otherwise where it aimed before. */
  lemma OtherAxisKeepsTarget(s: State, key: Key, w: int, h: int)
    ensures var (dw, dh) := Steps(key, w, h);
      var t := Toward(s, key, w, h);
      && (dw == 0 ==> t.width.target == if Done(s.width) then w as real else s.width.target)
      && (dh == 0 ==> t.height.target == if Done(s.height) then h as real else s.height.target)
      && (dw != 0 ==> t.width.target == (w + dw) as real)
      && (dh != 0 ==> t.height.target == (h + dh) as real)
  {
  }

  /** n steps after it stood at a whole number, a spring is on its way to its target. */
  ghost predicate OnItsWay(s: Spring, start: int, target: real, n: nat) {
    s.target == target && Distance(s) == Decay(n) * (target - start as real)
  }

  lemma SpringOnItsWay(s: Spring, start: int, n: nat)
    requires s.current == start as real
    ensures OnItsWay(After(s, n), start, s.target, n)
  {
    DistanceDecays(s, n);
  }

  /** So a spring that is still moving goes on to its old target through any key of the
      other axis. */
  lemma InterruptedGoesOn(s: State, key: Key, w: int, h: int, n: nat)
    ensures var (dw, dh) := Steps(key, w, h);
      var later := Frames(Toward(s, key, w, h), n);
      && (dw == 0 && !Done(s.width) ==> OnItsWay(later.width, w, s.width.target, n))
      && (dh == 0 && !Done(s.height) ==> OnItsWay(later.height, h, s.height.target, n))
  {
    var toward := Toward(s, key, w, h);
    OtherAxisKeepsTarget(s, key, w, h);
    FramesAreSteps(toward, n);
    SpringOnItsWay(toward.width, w, n);
    SpringOnItsWay(toward.height, h, n);
  }

  lemma PressedScheduledIff(s: State, n: nat)
    requires Distance(s.width) in {0.0, 200.0, -200.0} && Distance(s.height) in {0.0, 200.0, -200.0}
    ensures Frames(s, n + 1).scheduled <==> (Distance(s.width) != 0.0 || Distance(s.height) != 0.0) && n < 149
  {
    ScheduledIff(s, n + 1);
    RestingSteps(s.width, n);
    RestingSteps(s.height, n);
  }
}

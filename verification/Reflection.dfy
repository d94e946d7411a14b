/**
 The reflection loop that keeps the ball of clients/simple-damage.c inside its
 arena, one axis at a time. Positions are reals, arena bounds are integers.
 */
module Reflection {
  import opened Numbers

  predicate Outside(a: int, b: int, x: real) {
    x < a as real || b as real < x
  }

  function ReflectLow(a: int, x: real): real {
    if x < a as real then 2.0 * a as real - x else x
  }

  function ReflectHigh(b: int, x: real): real {
    if b as real <= x then 2.0 * b as real - x else x
  }

  /** One turn of the loop: it may reflect at both walls. */
  function Turn(a: int, b: int, x: real): real {
    ReflectHigh(b, ReflectLow(a, x))
  }

  // --------------------------------------------------------------- termination

  function Distance(a: int, b: int, x: real): (d: real)
    ensures d >= 0.0
    ensures Outside(a, b, x) ==> d > 0.0
  {
    if x < a as real then a as real - x
    else if b as real < x then x - b as real
    else 0.0
  }

  /** Each turn brings the point at least one arena width closer, or inside. */
  lemma TurnApproaches(a: int, b: int, x: real)
    requires a < b && Outside(a, b, x)
    ensures !Outside(a, b, Turn(a, b, x)) || Distance(a, b, Turn(a, b, x)) <= Distance(a, b, x) - (b - a) as real
  {
  }

  function Rank(a: int, b: int, x: real): nat {
    if Outside(a, b, x) then Distance(a, b, x).Floor + 1 else 0
  }

  lemma RankDrops(a: int, b: int, x: real)
    requires a < b && Outside(a, b, x)
    ensures Rank(a, b, Turn(a, b, x)) < Rank(a, b, x)
  {
    TurnApproaches(a, b, x);
  }

  /** The position after n turns, stopping as soon as the point is inside. */
  function After(a: int, b: int, x: real, n: nat): real
    decreases n
  {
    if n == 0 || !Outside(a, b, x) then x else After(a, b, Turn(a, b, x), n - 1)
  }

  ghost predicate Terminates(a: int, b: int, x: real) {
    exists n :: !Outside(a, b, After(a, b, x, n))
  }

  lemma {:induction false} StopsInTime(a: int, b: int, x: real)
    requires a < b
    ensures !Outside(a, b, After(a, b, x, Rank(a, b, x)))
    decreases Rank(a, b, x)
  {
    if Outside(a, b, x) {
      RankDrops(a, b, x);
      var y := Turn(a, b, x);
      StopsInTime(a, b, y);
      StoppedStays(a, b, y, Rank(a, b, y), Rank(a, b, x) - 1);
    }
  }

  lemma {:induction false} StoppedStays(a: int, b: int, x: real, m: nat, n: nat)
    requires m <= n && !Outside(a, b, After(a, b, x, m))
    ensures !Outside(a, b, After(a, b, x, n))
    decreases n
  {
    if m > 0 && Outside(a, b, x) {
      StoppedStays(a, b, Turn(a, b, x), m - 1, n - 1);
    }
  }

  lemma {:induction false} StuckOutside(a: int, b: int, x: real, n: nat)
    requires a >= b && Outside(a, b, x)
    ensures Outside(a, b, After(a, b, x, n))
    decreases n
  {
    if n > 0 {
      StuckOutside(a, b, Turn(a, b, x), n - 1);
    }
  }

  /** The loop ends exactly when the arena has positive width, or is a single
      point on which the ball already lies. */
  lemma TerminatesIff(a: int, b: int, x: real)
    ensures Terminates(a, b, x) <==> a < b || (a == b && x == a as real)
  {
    if a < b {
      StopsInTime(a, b, x);
    } else if Outside(a, b, x) {
      forall n ensures Outside(a, b, After(a, b, x, n)) {
        StuckOutside(a, b, x, n);
      }
    } else {
      assert After(a, b, x, 0) == x;
    }
  }

  // ------------------------------------------------------------ what it computes

  function Settle(a: int, b: int, x: real): (y: real)
    requires a < b
    ensures !Outside(a, b, y)
    decreases Rank(a, b, x)
  {
    if Outside(a, b, x) then
      RankDrops(a, b, x);
      Settle(a, b, Turn(a, b, x))
    else x
  }

  /** Number of turns, each of which flips the velocity once. */
  function Turns(a: int, b: int, x: real): nat
    requires a < b
    decreases Rank(a, b, x)
  {
    if Outside(a, b, x) then
      RankDrops(a, b, x);
      1 + Turns(a, b, Turn(a, b, x))
    else 0
  }

  /** Number of turns that reflect at both walls. */
  function DoubleTurns(a: int, b: int, x: real): nat
    requires a < b
    decreases Rank(a, b, x)
  {
    if Outside(a, b, x) then
      RankDrops(a, b, x);
      (if x < a as real && b as real <= ReflectLow(a, x) then 1 else 0) + DoubleTurns(a, b, Turn(a, b, x))
    else 0
  }

  /** Number of reflections at either wall. */
  function Reflections(a: int, b: int, x: real): nat
    requires a < b
  {
    Turns(a, b, x) + DoubleTurns(a, b, x)
  }

  function Sign(n: nat): real {
    if n % 2 == 0 then 1.0 else -1.0
  }

  /** y is x moved by whole double widths, mirrored at a when the sign is -1. */
  predicate Unfolds(a: int, b: int, x: real, y: real, sign: real, k: int) {
    y == sign * x + (1.0 - sign) * a as real + 2.0 * (b - a) as real * k as real
  }

  lemma TurnUnfolds(a: int, b: int, x: real) returns (k: int)
    requires a < b && Outside(a, b, x)
    ensures Unfolds(a, b, x, Turn(a, b, x), Sign(TurnReflections(a, b, x)), k)
  {
    k := if x < a as real && b as real > ReflectLow(a, x) then 0 else 1;
  }

  lemma UnfoldsCompose(a: int, b: int, x: real, y: real, z: real, s: real, k: int, t: real, m: int) returns (n: int)
    requires Unfolds(a, b, x, y, s, k) && Unfolds(a, b, y, z, t, m)
    requires (s == 1.0 || s == -1.0) && (t == 1.0 || t == -1.0)
    ensures Unfolds(a, b, x, z, s * t, n)
  {
    var p := 2.0 * (b - a) as real;
    n := if t == 1.0 then k + m else m - k;
    assert p * n as real == if t == 1.0 then p * m as real + p * k as real else p * m as real - p * k as real;
  }

  /** How often one turn reflects. */
  function TurnReflections(a: int, b: int, x: real): nat {
    1 + if x < a as real && b as real <= ReflectLow(a, x) then 1 else 0
  }

  lemma ReflectionsUnfold(a: int, b: int, x: real)
    requires a < b && Outside(a, b, x)
    ensures Reflections(a, b, x) == TurnReflections(a, b, x) + Reflections(a, b, Turn(a, b, x))
    ensures Settle(a, b, x) == Settle(a, b, Turn(a, b, x))
  {
  }

  lemma SignsCompose(a: int, b: int, x: real, y: real, z: real, j: nat, k: int, m: nat, l: int) returns (n: int)
    requires Unfolds(a, b, x, y, Sign(j), k) && Unfolds(a, b, y, z, Sign(m), l)
    ensures Unfolds(a, b, x, z, Sign(j + m), n)
  {
    n := UnfoldsCompose(a, b, x, y, z, Sign(j), k, Sign(m), l);
    SignOfSum(j, m);
  }

  /** The final position, with the reflections counted: mirrored iff they are odd. */
  lemma {:induction false} SettleUnfolds(a: int, b: int, x: real) returns (k: int)
    requires a < b
    ensures Unfolds(a, b, x, Settle(a, b, x), Sign(Reflections(a, b, x)), k)
    decreases Rank(a, b, x)
  {
    if Outside(a, b, x) {
      RankDrops(a, b, x);
      var y := Turn(a, b, x);
      var k1 := TurnUnfolds(a, b, x);
      var k2 := SettleUnfolds(a, b, y);
      k := SignsCompose(a, b, x, y, Settle(a, b, y), TurnReflections(a, b, x), k1, Reflections(a, b, y), k2);
      ReflectionsUnfold(a, b, x);
    } else {
      k := 0;
      UnfoldsInPlace(a, b, x);
    }
  }

  lemma SignOfSum(m: nat, n: nat)
    ensures Sign(m + n) == Sign(m) * Sign(n)
  {
  }

  lemma UnfoldsInPlace(a: int, b: int, x: real)
    ensures Unfolds(a, b, x, x, 1.0, 0)
  {
  }

  /** The triangle wave of period 2 (b - a) that is the identity on the arena. */
  function TriangleWave(a: int, b: int, x: real): real
    requires a < b
  {
    var w := (b - a) as real;
    var k := ((x - a as real) / (2.0 * w)).Floor;
    var u := x - a as real - 2.0 * w * k as real;
    if u <= w then a as real + u else a as real + 2.0 * w - u
  }

  lemma MulPositive(p: real, q: real)
    requires p > 0.0 && q >= 0.0
    ensures p * q >= 0.0 && (q > 0.0 ==> p * q > 0.0)
  {
  }

  lemma RemainderOf(t: real, p: real, q: real, f: real)
    requires p > 0.0 && f <= q < f + 1.0 && p * q == t
    ensures 0.0 <= t - p * f < p
  {
    var d, e := q - f, f + 1.0 - q;
    assert p * d >= 0.0 && p * e > 0.0;
    assert t - p * f == p * d;
    assert p - p * d == p * e;
  }

  lemma Remainder(t: real, p: real)
    requires p > 0.0
    ensures 0.0 <= t - p * (t / p).Floor as real < p
  {
    var q := t / p;
    assert p * q == t;
    RemainderOf(t, p, q, q.Floor as real);
  }

  lemma SmallMultiple(p: real, d: int, g: real)
    requires p > 0.0 && g == p * d as real
    ensures -p < g < p ==> d == 0
    ensures 0.0 <= g <= p ==> d == 0 || d == 1
  {
    if d >= 2 {
      MulPositive(p, d as real - 2.0);
      assert p * (d as real - 2.0) == p * d as real - 2.0 * p;
    } else if d <= -1 {
      MulPositive(p, -1.0 - d as real);
      assert p * (-1.0 - d as real) == -p - p * d as real;
    }
  }

  lemma WaveUnfolds(a: int, b: int, x: real) returns (sign: real, k: int)
    requires a < b
    ensures sign == 1.0 || sign == -1.0
    ensures Unfolds(a, b, x, TriangleWave(a, b, x), sign, k)
    ensures !Outside(a, b, TriangleWave(a, b, x))
  {
    var p := 2.0 * (b - a) as real;
    var f := ((x - a as real) / p).Floor;
    Remainder(x - a as real, p);
    if x - a as real - p * f as real <= (b - a) as real {
      sign, k := 1.0, -f;
      assert p * k as real == -(p * f as real);
    } else {
      sign, k := -1.0, f + 1;
      assert p * k as real == p * f as real + p;
    }
  }

  /** Only one point of the arena is reached from x by such moves. */
  lemma UnfoldsUnique(a: int, b: int, x: real, y: real, z: real, s: real, k: int, t: real, m: int)
    requires a < b && (s == 1.0 || s == -1.0) && (t == 1.0 || t == -1.0)
    requires Unfolds(a, b, x, y, s, k) && !Outside(a, b, y)
    requires Unfolds(a, b, x, z, t, m) && !Outside(a, b, z)
    ensures y == z
  {
    var p := 2.0 * (b - a) as real;
    if s == t {
      assert p * (m - k) as real == p * m as real - p * k as real;
      SmallMultiple(p, m - k, z - y);
    } else {
      assert p * (m + k) as real == p * m as real + p * k as real;
      SmallMultiple(p, m + k, y + z - 2.0 * a as real);
    }
  }

  /** Main result: the loop folds the unreflected position into the arena. */
  lemma SettleIsTriangleWave(a: int, b: int, x: real)
    requires a < b
    ensures Settle(a, b, x) == TriangleWave(a, b, x)
  {
    var k := SettleUnfolds(a, b, x);
    var t, m := WaveUnfolds(a, b, x);
    UnfoldsUnique(a, b, x, Settle(a, b, x), TriangleWave(a, b, x), Sign(Reflections(a, b, x)), k, t, m);
  }

  // ----------------------------------------------------------- velocity direction

  lemma FloorOfShift(t: real, p: real)
    requires p > 0.0
    ensures ((t - p) / p).Floor == (t / p).Floor - 1
  {
    var q := t / p;
    assert p * q == t;
    assert p * (q - 1.0) == t - p;
    QuotientUnique(t - p, p, q - 1.0);
  }

  lemma QuotientUnique(t: real, p: real, q: real)
    requires p > 0.0 && p * q == t
    ensures t / p == q
  {
    var r := t / p;
    assert p * r == t;
    assert p * (r - q) == 0.0;
  }

  lemma SmallQuotient(t: real, p: real)
    requires 0.0 <= t < p
    ensures (t / p).Floor == 0
  {
    Remainder(t, p);
    SmallMultiple(p, (t / p).Floor, p * (t / p).Floor as real);
  }

  /** The number of double reflections, in closed form. */
  lemma {:induction false} DoubleTurnsCount(a: int, b: int, x: real)
    requires a < b
    ensures DoubleTurns(a, b, x) == (Abs(x - b as real) / (2.0 * (b - a) as real)).Floor
    decreases Rank(a, b, x)
  {
    var w := (b - a) as real;
    if Outside(a, b, x) {
      RankDrops(a, b, x);
      DoubleTurnsCount(a, b, Turn(a, b, x));
      if x < a as real {
        if b as real <= ReflectLow(a, x) {
          FloorOfShift(b as real - x, 2.0 * w);
        } else {
          SmallQuotient(b as real - x, 2.0 * w);
          SmallQuotient(Abs(Turn(a, b, x) - b as real), 2.0 * w);
        }
      }
    } else {
      SmallQuotient(Abs(x - b as real), 2.0 * w);
    }
  }

  /** The velocity keeps its magnitude, but a reflection at both walls within one
      turn flips it once instead of twice: its direction agrees with the reflected
      path iff the number of whole double widths between x and b is even. */
  lemma VelocityDirectionIff(a: int, b: int, x: real, v: real)
    requires a < b && v != 0.0
    ensures v * Sign(Turns(a, b, x)) == v * Sign(Reflections(a, b, x))
       <==> (Abs(x - b as real) / (2.0 * (b - a) as real)).Floor % 2 == 0
  {
    DoubleTurnsCount(a, b, x);
  }

  /** A ball one arena width below the arena comes back moving the wrong way. */
  lemma VelocityDirectionCounterexample()
    ensures Settle(0, 10, -10.0) == 10.0 && Turns(0, 10, -10.0) == 1 && Reflections(0, 10, -10.0) == 2
  {
  }

  lemma TurnTaken(a: int, b: int, x: real, v: real)
    requires a < b && Outside(a, b, x)
    ensures Settle(a, b, Turn(a, b, x)) == Settle(a, b, x)
    ensures v * -1.0 * Sign(Turns(a, b, Turn(a, b, x))) == v * Sign(Turns(a, b, x))
    ensures Rank(a, b, Turn(a, b, x)) < Rank(a, b, x)
  {
    RankDrops(a, b, x);
    var n := Turns(a, b, Turn(a, b, x));
    assert Turns(a, b, x) == n + 1;
    assert Sign(n + 1) == -Sign(n);
  }

  lemma Landed(a: int, b: int, start: real, velocity: real, x: real, v: real)
    requires a < b && !Outside(a, b, x) && Settle(a, b, x) == Settle(a, b, start)
    requires v * Sign(Turns(a, b, x)) == velocity * Sign(Turns(a, b, start))
    ensures x == TriangleWave(a, b, start) && v == velocity * Sign(Turns(a, b, start))
  {
    assert Turns(a, b, x) == 0 && Settle(a, b, x) == x;
    SettleIsTriangleWave(a, b, start);
  }

  /** The loop as written, on one axis. */
  method Reflect(a: int, b: int, start: real, velocity: real) returns (x: real, v: real)
    requires a < b
    ensures x == TriangleWave(a, b, start) && !Outside(a, b, x)
    ensures v == velocity * Sign(Turns(a, b, start)) && Abs(v) == Abs(velocity)
  {
    x, v := start, velocity;
    while x < a as real || b as real < x
      invariant Settle(a, b, x) == Settle(a, b, start)
      invariant v * Sign(Turns(a, b, x)) == velocity * Sign(Turns(a, b, start))
      invariant v == velocity || v == -velocity
      decreases Rank(a, b, x)
    {
      TurnTaken(a, b, x, v);
      assert Outside(a, b, x);
      ghost var turned := Turn(a, b, x);
      if x < a as real {
        x := 2.0 * a as real - x;
      }
      if b as real <= x {
        x := 2.0 * b as real - x;
      }
      assert x == turned;
      v := v * -1.0;
    }
    Landed(a, b, start, velocity, x, v);
  }
}

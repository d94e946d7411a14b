/**
 The surface that the triangle strips of a gear in clients/es2gears.c make: where its
 triangles meet, and that nothing is left open.
 */
module GearSurface {
  import opened GearFaces

  // ------------------------------------------------------------------- triangles

  function Triangle<T>(a: T, b: T, c: T): seq<(T, T)> {
    [(a, b), (b, c), (c, a)]
  }

  /** The sides of a strip's triangles, each triangle walked round in the direction of
      the first: every other one has its first two corners exchanged. */
  function StripSides<T>(strip: seq<T>): seq<(T, T)> {
    if |strip| < 3 then []
    else
      var n := |strip| - 3;
      StripSides(strip[..n + 2]) +
      if n % 2 == 0 then Triangle(strip[n], strip[n + 1], strip[n + 2])
      else Triangle(strip[n + 1], strip[n], strip[n + 2])
  }

  /** How often a side is walked. */
  function Times<T(==)>(sides: seq<(T, T)>, a: T, b: T): nat {
    multiset(sides)[(a, b)]
  }

  /** The net of one walk from p to q, counting the walks from a to b and back. */
  function Walk<T(==)>(p: T, q: T, a: T, b: T): int {
    (if (p, q) == (a, b) then 1 else 0) - (if (q, p) == (a, b) then 1 else 0)
  }

  /** How often a side is walked one way rather than the other. */
  function Net<T(==)>(sides: seq<(T, T)>, a: T, b: T): int {
    if sides == [] then 0
    else
      var last := sides[|sides| - 1];
      Net(sides[..|sides| - 1], a, b) + Walk(last.0, last.1, a, b)
  }

  lemma {:induction false} NetIsTimes<T>(sides: seq<(T, T)>, a: T, b: T)
    ensures Net(sides, a, b) == Times(sides, a, b) - Times(sides, b, a)
  {
    if sides != [] {
      var most, last := sides[..|sides| - 1], sides[|sides| - 1];
      NetIsTimes(most, a, b);
      assert sides == most + [last];
      assert multiset(sides) == multiset(most) + multiset{last};
    }
  }

  lemma WalkBack<T>(p: T, q: T, a: T, b: T)
    ensures Walk(q, p, a, b) == -Walk(p, q, a, b)
  {
  }

  lemma {:induction false} NetJoined<T>(s: seq<(T, T)>, t: seq<(T, T)>, a: T, b: T)
    ensures Net(s + t, a, b) == Net(s, a, b) + Net(t, a, b)
  {
    if t == [] {
      assert s + t == s;
    } else {
      var most, last := t[..|t| - 1], t[|t| - 1];
      NetJoined(s, most, a, b);
      NetSide(s + most, last.0, last.1, a, b);
      NetSide(most, last.0, last.1, a, b);
      assert t == most + [last] && s + t == s + most + [last];
    }
  }

  lemma NetSide<T>(s: seq<(T, T)>, p: T, q: T, a: T, b: T)
    ensures Net(s + [(p, q)], a, b) == Net(s, a, b) + Walk(p, q, a, b)
  {
    assert (s + [(p, q)])[..|s|] == s;
  }

  lemma NetTriangle<T>(s: seq<(T, T)>, p: T, q: T, r: T, a: T, b: T)
    ensures Net(s + Triangle(p, q, r), a, b) == Net(s, a, b) + Walk(p, q, a, b) + Walk(q, r, a, b) + Walk(r, p, a, b)
  {
    NetSide(s, p, q, a, b);
    NetSide(s + [(p, q)], q, r, a, b);
    NetSide(s + [(p, q)] + [(q, r)], r, p, a, b);
    assert s + Triangle(p, q, r) == s + [(p, q)] + [(q, r)] + [(r, p)];
  }

  lemma SidesOfLonger<T>(strip: seq<T>, v: T)
    requires |strip| >= 2
    ensures var n := |strip| - 2;
      StripSides(strip + [v]) == StripSides(strip)
        + if n % 2 == 0 then Triangle(strip[n], strip[n + 1], v) else Triangle(strip[n + 1], strip[n], v)
  {
    var longer, n := strip + [v], |strip| - 2;
    assert longer[..n + 2] == strip && longer[n] == strip[n] && longer[n + 1] == strip[n + 1] && longer[n + 2] == v;
  }

  lemma NetOneMore<T>(strip: seq<T>, v: T, a: T, b: T)
    requires |strip| >= 2
    ensures var n := |strip| - 2;
      var p, q := if n % 2 == 0 then strip[n] else strip[n + 1], if n % 2 == 0 then strip[n + 1] else strip[n];
      Net(StripSides(strip + [v]), a, b)
        == Net(StripSides(strip), a, b) + Walk(p, q, a, b) + Walk(q, v, a, b) + Walk(v, p, a, b)
  {
    var n := |strip| - 2;
    var p, q := if n % 2 == 0 then strip[n] else strip[n + 1], if n % 2 == 0 then strip[n + 1] else strip[n];
    SidesOfLonger(strip, v);
    NetTriangle(StripSides(strip), p, q, v, a, b);
  }

  /** What is left of a strip of four corners is its outline ... */
  lemma FourOutline<T>(s: seq<T>, a: T, b: T)
    requires |s| == 4
    ensures Net(StripSides(s), a, b)
      == Walk(s[0], s[1], a, b) + Walk(s[1], s[3], a, b) + Walk(s[3], s[2], a, b) + Walk(s[2], s[0], a, b)
  {
    ThreeOutline(s[..3], a, b);
    assert s == s[..3] + [s[3]];
    NetOneMore(s[..3], s[3], a, b);
    WalkBack(s[1], s[2], a, b);
  }

  lemma ThreeOutline<T>(s: seq<T>, a: T, b: T)
    requires |s| == 3
    ensures Net(StripSides(s), a, b) == Walk(s[0], s[1], a, b) + Walk(s[1], s[2], a, b) + Walk(s[2], s[0], a, b)
  {
    assert s == s[..2] + [s[2]];
    assert StripSides(s[..2]) == [] && Net(StripSides(s[..2]), a, b) == 0;
    NetOneMore(s[..2], s[2], a, b);
  }

  lemma FiveOutline<T>(s: seq<T>, a: T, b: T)
    requires |s| == 5
    ensures Net(StripSides(s), a, b)
      == Walk(s[0], s[1], a, b) + Walk(s[1], s[3], a, b) + Walk(s[3], s[4], a, b) + Walk(s[4], s[2], a, b)
       + Walk(s[2], s[0], a, b)
  {
    FourOutline(s[..4], a, b);
    assert s == s[..4] + [s[4]];
    NetOneMore(s[..4], s[4], a, b);
    WalkBack(s[2], s[3], a, b);
  }

  lemma SixOutline<T>(s: seq<T>, a: T, b: T)
    requires |s| == 6
    ensures Net(StripSides(s), a, b)
      == Walk(s[0], s[1], a, b) + Walk(s[1], s[3], a, b) + Walk(s[3], s[5], a, b) + Walk(s[5], s[4], a, b)
       + Walk(s[4], s[2], a, b) + Walk(s[2], s[0], a, b)
  {
    FiveOutline(s[..5], a, b);
    assert s == s[..5] + [s[5]];
    NetOneMore(s[..5], s[5], a, b);
    WalkBack(s[3], s[4], a, b);
  }

  /** ... and so it is for seven. */
  lemma SevenOutline<T>(s: seq<T>, a: T, b: T)
    requires |s| == 7
    ensures Net(StripSides(s), a, b)
      == Walk(s[0], s[1], a, b) + Walk(s[1], s[3], a, b) + Walk(s[3], s[5], a, b) + Walk(s[5], s[6], a, b)
       + Walk(s[6], s[4], a, b) + Walk(s[4], s[2], a, b) + Walk(s[2], s[0], a, b)
  {
    SixOutline(s[..6], a, b);
    assert s == s[..6] + [s[6]];
    NetOneMore(s[..6], s[6], a, b);
    WalkBack(s[4], s[5], a, b);
  }

  // --------------------------------------------------------------------- one tooth

  datatype Position = Position(x: real, y: real, z: real)

  /** Every side is walked both ways equally often: no edge of the surface is open. */
  ghost predicate Closed(sides: seq<(Position, Position)>) {
    forall a, b :: Times(sides, a, b) == Times(sides, b, a)
  }

  function PositionOf(v: Vertex): Position {
    Position(v.x, v.y, v.z)
  }

  function Positions(face: seq<Vertex>): (s: seq<Position>)
    ensures |s| == |face|
  {
    seq(|face|, k requires 0 <= k < |face| => PositionOf(face[k]))
  }

  /** The sides of all triangles of some strips. */
  function Sides(faces: seq<seq<Vertex>>): seq<(Position, Position)> {
    if faces == [] then [] else Sides(faces[..|faces| - 1]) + StripSides(Positions(faces[|faces| - 1]))
  }

  function Lifted(p: Point, z: real): Position {
    Position(p.x, p.y, z)
  }

  /** Once round the wall between two points, from the front of the first. */
  function Loop(p: Point, q: Point, z: real, a: Position, b: Position): int {
    Walk(Lifted(p, z), Lifted(q, z), a, b) + Walk(Lifted(q, z), Lifted(q, -z), a, b)
    + Walk(Lifted(q, -z), Lifted(p, -z), a, b) + Walk(Lifted(p, -z), Lifted(p, z), a, b)
  }

  lemma LoopBack(p: Point, q: Point, z: real, a: Position, b: Position)
    ensures Loop(q, p, z, a, b) == -Loop(p, q, z, a, b)
  {
    WalkBack(Lifted(p, z), Lifted(q, z), a, b);
    WalkBack(Lifted(q, -z), Lifted(p, -z), a, b);
  }

  lemma SidesOfOneMore(faces: seq<seq<Vertex>>, face: seq<Vertex>, a: Position, b: Position)
    ensures Net(Sides(faces + [face]), a, b) == Net(Sides(faces), a, b) + Net(StripSides(Positions(face)), a, b)
  {
    assert (faces + [face])[..|faces|] == faces;
    NetJoined(Sides(faces), StripSides(Positions(face)), a, b);
  }

  /** What is left of a wall: once round it, from the back of the first point. */
  lemma QuadNet(p: Point, q: Point, width: real, a: Position, b: Position)
    ensures Net(StripSides(Positions(Quad(p, q, width))), a, b) == Loop(p, q, width * 0.5, a, b)
  {
    var s := Positions(Quad(p, q, width));
    assert s[0] == Lifted(p, -(width * 0.5)) && s[1] == Lifted(p, width * 0.5);
    assert s[2] == Lifted(q, -(width * 0.5)) && s[3] == Lifted(q, width * 0.5);
    FourOutline(s, a, b);
  }

  /** Round a tooth at one height, along its rim, its later side, its inside and its
      earlier side. */
  function Round(p: Points, z: real, a: Position, b: Position): int {
    Walk(Lifted(p[0], z), Lifted(p[1], z), a, b) + Walk(Lifted(p[1], z), Lifted(p[3], z), a, b)
    + Walk(Lifted(p[3], z), Lifted(p[5], z), a, b) + Walk(Lifted(p[5], z), Lifted(p[6], z), a, b)
    + Walk(Lifted(p[6], z), Lifted(p[4], z), a, b) + Walk(Lifted(p[4], z), Lifted(p[2], z), a, b)
    + Walk(Lifted(p[2], z), Lifted(p[0], z), a, b)
  }

  lemma FrontNet(p: Points, width: real, a: Position, b: Position)
    ensures Net(StripSides(Positions(Front(p, width))), a, b) == Round(p, width * 0.5, a, b)
  {
    var s := Positions(Front(p, width));
    assert forall k | 0 <= k < 7 :: s[k] == Lifted(p[k], width * 0.5);
    SevenOutline(s, a, b);
  }

  /** The back goes round the other way. */
  lemma BackNet(p: Points, width: real, a: Position, b: Position)
    ensures Net(StripSides(Positions(Back(p, width))), a, b) == -Round(p, -(width * 0.5), a, b)
  {
    var s, z := Positions(Back(p, width)), -(width * 0.5);
    assert forall k | 0 <= k < 7 :: s[k] == Lifted(p[6 - k], z);
    SevenOutline(s, a, b);
    WalkBack(Lifted(p[0], z), Lifted(p[1], z), a, b);
    WalkBack(Lifted(p[1], z), Lifted(p[3], z), a, b);
    WalkBack(Lifted(p[3], z), Lifted(p[5], z), a, b);
    WalkBack(Lifted(p[5], z), Lifted(p[6], z), a, b);
    WalkBack(Lifted(p[6], z), Lifted(p[4], z), a, b);
    WalkBack(Lifted(p[4], z), Lifted(p[2], z), a, b);
    WalkBack(Lifted(p[2], z), Lifted(p[0], z), a, b);
  }

  /** Front, back and the walls round a tooth, all its seven sides walled. */
  lemma Prism(p: Points, z: real, a: Position, b: Position)
    ensures Round(p, z, a, b) - Round(p, -z, a, b)
      == Loop(p[0], p[1], z, a, b) + Loop(p[1], p[3], z, a, b) + Loop(p[3], p[5], z, a, b)
       + Loop(p[5], p[6], z, a, b) + Loop(p[6], p[4], z, a, b) + Loop(p[4], p[2], z, a, b) + Loop(p[2], p[0], z, a, b)
  {
    WallsMeet(p[0], p[1], p[3], z, a, b);
    WallsMeet(p[1], p[3], p[5], z, a, b);
    WallsMeet(p[3], p[5], p[6], z, a, b);
    WallsMeet(p[5], p[6], p[4], z, a, b);
    WallsMeet(p[6], p[4], p[2], z, a, b);
    WallsMeet(p[4], p[2], p[0], z, a, b);
    WallsMeet(p[2], p[0], p[1], z, a, b);
    FlatBack(p, z, a, b);
  }

  /** Two walls in a row share the edge at the point between them. */
  lemma WallsMeet(p: Point, q: Point, r: Point, z: real, a: Position, b: Position)
    ensures Walk(Lifted(q, z), Lifted(q, -z), a, b) == -Walk(Lifted(q, -z), Lifted(q, z), a, b)
  {
    WalkBack(Lifted(q, z), Lifted(q, -z), a, b);
  }

  lemma FlatBack(p: Points, z: real, a: Position, b: Position)
    ensures forall i, j | 0 <= i < 7 && 0 <= j < 7 ::
      Walk(Lifted(p[i], -z), Lifted(p[j], -z), a, b) == -Walk(Lifted(p[j], -z), Lifted(p[i], -z), a, b)
  {
    forall i, j | 0 <= i < 7 && 0 <= j < 7
      ensures Walk(Lifted(p[i], -z), Lifted(p[j], -z), a, b) == -Walk(Lifted(p[j], -z), Lifted(p[i], -z), a, b)
    {
      WalkBack(Lifted(p[i], -z), Lifted(p[j], -z), a, b);
    }
  }

  /** A tooth is open on its two sides only, towards the teeth before and after it. */
  lemma ToothNet(p: Points, width: real, a: Position, b: Position)
    ensures Net(Sides(Faces(p, width)), a, b)
      == Loop(p[5], p[6], width * 0.5, a, b) - Loop(p[2], p[4], width * 0.5, a, b)
  {
    var z, f := width * 0.5, Faces(p, width);
    FacesNet(p, width, a, b);
    Prism(p, z, a, b);
    LoopBack(p[0], p[1], z, a, b);
    LoopBack(p[1], p[3], z, a, b);
    LoopBack(p[3], p[5], z, a, b);
    LoopBack(p[6], p[4], z, a, b);
    LoopBack(p[2], p[0], z, a, b);
    LoopBack(p[2], p[4], z, a, b);
  }

  lemma FacesNet(p: Points, width: real, a: Position, b: Position)
    ensures var z := width * 0.5;
      Net(Sides(Faces(p, width)), a, b)
        == Round(p, z, a, b) - Round(p, -z, a, b) + Loop(p[4], p[6], z, a, b) + Loop(p[0], p[2], z, a, b)
         + Loop(p[1], p[0], z, a, b) + Loop(p[3], p[1], z, a, b) + Loop(p[5], p[3], z, a, b)
  {
    var f := Faces(p, width);
    var f0: seq<seq<Vertex>> := [];
    var f1 := f0 + [Front(p, width)];
    var f2 := f1 + [Quad(p[4], p[6], width)];
    var f3 := f2 + [Back(p, width)];
    var f4 := f3 + [Quad(p[0], p[2], width)];
    var f5 := f4 + [Quad(p[1], p[0], width)];
    var f6 := f5 + [Quad(p[3], p[1], width)];
    assert f == f6 + [Quad(p[5], p[3], width)];
    SidesOfOneMore(f0, Front(p, width), a, b);
    SidesOfOneMore(f1, Quad(p[4], p[6], width), a, b);
    SidesOfOneMore(f2, Back(p, width), a, b);
    SidesOfOneMore(f3, Quad(p[0], p[2], width), a, b);
    SidesOfOneMore(f4, Quad(p[1], p[0], width), a, b);
    SidesOfOneMore(f5, Quad(p[3], p[1], width), a, b);
    SidesOfOneMore(f6, Quad(p[5], p[3], width), a, b);
    FrontNet(p, width, a, b);
    BackNet(p, width, a, b);
    QuadNet(p[4], p[6], width, a, b);
    QuadNet(p[0], p[2], width, a, b);
    QuadNet(p[1], p[0], width, a, b);
    QuadNet(p[3], p[1], width, a, b);
    QuadNet(p[5], p[3], width, a, b);
  }

  // --------------------------------------------------------------------- the gear

  lemma {:induction false} SidesOfConcatenation(f: seq<seq<Vertex>>, g: seq<seq<Vertex>>, a: Position, b: Position)
    ensures Net(Sides(f + g), a, b) == Net(Sides(f), a, b) + Net(Sides(g), a, b)
  {
    if g == [] {
      assert f + g == f;
    } else {
      var most, last := g[..|g| - 1], g[|g| - 1];
      SidesOfConcatenation(f, most, a, b);
      assert g == most + [last] && f + g == f + most + [last];
      SidesOfOneMore(f + most, last, a, b);
      SidesOfOneMore(most, last, a, b);
    }
  }

  /** The later side of a tooth is the earlier one of the next. */
  predicate Meets(p: Points, q: Points) {
    p[5] == q[2] && p[6] == q[4]
  }

  ghost predicate InARow(teeth: seq<Points>) {
    forall i | 0 <= i < |teeth| - 1 :: Meets(teeth[i], teeth[i + 1])
  }

  lemma FacesOfOneMore(teeth: seq<Points>, p: Points, width: real, a: Position, b: Position)
    ensures Net(Sides(AllFaces(teeth + [p], width)), a, b)
      == Net(Sides(AllFaces(teeth, width)), a, b)
         + Loop(p[5], p[6], width * 0.5, a, b) - Loop(p[2], p[4], width * 0.5, a, b)
  {
    assert (teeth + [p])[..|teeth|] == teeth;
    SidesOfConcatenation(AllFaces(teeth, width), Faces(p, width), a, b);
    ToothNet(p, width, a, b);
  }

  /** The net of teeth that are open on the earlier side of one and the later side of
      another. */
  predicate OpenBetween(teeth: seq<Points>, first: Points, last: Points, width: real, a: Position, b: Position) {
    Net(Sides(AllFaces(teeth, width)), a, b)
      == Loop(last[5], last[6], width * 0.5, a, b) - Loop(first[2], first[4], width * 0.5, a, b)
  }

  lemma OneTooth(p: Points, width: real, a: Position, b: Position)
    ensures OpenBetween([p], p, p, width, a, b)
  {
    assert [] + [p] == [p];
    FacesOfOneMore([], p, width, a, b);
    NoTeeth(width, a, b);
  }

  lemma NextToothClosesGap(teeth: seq<Points>, first: Points, last: Points, p: Points, width: real,
                           a: Position, b: Position)
    requires OpenBetween(teeth, first, last, width, a, b) && Meets(last, p)
    ensures OpenBetween(teeth + [p], first, p, width, a, b)
  {
    FacesOfOneMore(teeth, p, width, a, b);
  }

  /** Teeth in a row are open on the earlier side of the first and the later one of the
      last only. */
  lemma {:induction false} RowNet(teeth: seq<Points>, width: real, a: Position, b: Position)
    requires InARow(teeth) && teeth != []
    ensures OpenBetween(teeth, teeth[0], teeth[|teeth| - 1], width, a, b)
  {
    var most, last := teeth[..|teeth| - 1], teeth[|teeth| - 1];
    if most == [] {
      assert teeth == [last];
      OneTooth(last, width, a, b);
    } else {
      RowNet(most, width, a, b);
      assert Meets(teeth[|teeth| - 2], teeth[|teeth| - 1]);
      NextToothClosesGap(most, teeth[0], teeth[|teeth| - 2], last, width, a, b);
      assert teeth == most + [last];
    }
  }

  lemma NoTeeth(width: real, a: Position, b: Position)
    ensures Net(Sides(AllFaces([], width)), a, b) == 0
  {
  }

  /** A ring of teeth is a closed surface. */
  lemma RingIsClosed(teeth: seq<Points>, width: real)
    requires InARow(teeth) && (teeth != [] ==> Meets(teeth[|teeth| - 1], teeth[0]))
    ensures Closed(Sides(AllFaces(teeth, width)))
  {
    var sides := Sides(AllFaces(teeth, width));
    forall a, b ensures Times(sides, a, b) == Times(sides, b, a) {
      if teeth == [] {
        assert sides == [];
      } else {
        RowNet(teeth, width, a, b);
      }
      NetIsTimes(sides, a, b);
    }
  }

  lemma NextMeets(r0: real, r1: real, r2: real, dirs: Directions, i: nat, j: nat)
    requires dirs != [] && Toward(dirs, 4 * j) == Toward(dirs, 4 * i + 4)
    ensures Meets(Tooth(r0, r1, r2, dirs, i), Tooth(r0, r1, r2, dirs, j))
  {
  }

  lemma AllRound(dirs: Directions, n: nat)
    requires dirs != [] && n == |dirs| / 4
    ensures n > 0 && Toward(dirs, 4 * (n - 1) + 4) == Toward(dirs, 4 * 0)
  {
    assert 4 * (n - 1) + 4 == |dirs|;
  }

  lemma NextTooth(inner: real, outer: real, depth: real, dirs: Directions, i: nat)
    requires i + 1 < |dirs| / 4
    ensures var teeth := Teeth(inner, outer, depth, dirs); Meets(teeth[i], teeth[i + 1])
  {
    assert 4 * (i + 1) == 4 * i + 4;
    NextMeets(inner, outer - depth / 2.0, outer + depth / 2.0, dirs, i, i + 1);
  }

  lemma LastTooth(inner: real, outer: real, depth: real, dirs: Directions)
    requires dirs != []
    ensures var teeth := Teeth(inner, outer, depth, dirs); teeth != [] && Meets(teeth[|teeth| - 1], teeth[0])
  {
    var n := |dirs| / 4;
    AllRound(dirs, n);
    NextMeets(inner, outer - depth / 2.0, outer + depth / 2.0, dirs, n - 1, 0);
  }

  /** The teeth of a gear are one. */
  lemma TeethAreARing(inner: real, outer: real, depth: real, dirs: Directions)
    ensures var teeth := Teeth(inner, outer, depth, dirs);
      InARow(teeth) && (teeth != [] ==> Meets(teeth[|teeth| - 1], teeth[0]))
  {
    var teeth := Teeth(inner, outer, depth, dirs);
    forall i | 0 <= i < |teeth| - 1 ensures Meets(teeth[i], teeth[i + 1]) {
      NextTooth(inner, outer, depth, dirs, i);
    }
    if dirs != [] {
      LastTooth(inner, outer, depth, dirs);
    }
  }

  /** A gear of any number of teeth is a closed surface. */
  lemma GearIsClosed(inner: real, outer: real, depth: real, dirs: Directions, width: real)
    ensures Closed(Sides(AllFaces(Teeth(inner, outer, depth, dirs), width)))
  {
    TeethAreARing(inner, outer, depth, dirs);
    RingIsClosed(Teeth(inner, outer, depth, dirs), width);
  }

  // ---------------------------------------------------------- the sides of a tooth

  /** The corners that follow one another round the front of a tooth. */
  const OUTLINE: seq<(nat, nat)> := [(0, 1), (1, 3), (3, 5), (5, 6), (6, 4), (4, 2), (2, 0)]

  const CORNERS: seq<nat> := [0, 1, 2, 3, 4, 5, 6]

  lemma SidesGrow(strip: seq<nat>, v: nat, sides: seq<(nat, nat)>)
    requires |strip| >= 2 && StripSides(strip) == sides
    ensures var n := |strip| - 2;
      StripSides(strip + [v]) ==
        sides + if n % 2 == 0 then Triangle(strip[n], strip[n + 1], v) else Triangle(strip[n + 1], strip[n], v)
  {
    SidesOfLonger(strip, v);
  }

  lemma CornerSides() returns (sides: seq<(nat, nat)>)
    ensures sides == StripSides(CORNERS)
    ensures sides == [(0, 1), (1, 2), (2, 0)] + [(2, 1), (1, 3), (3, 2)] + [(2, 3), (3, 4), (4, 2)]
      + [(4, 3), (3, 5), (5, 4)] + [(4, 5), (5, 6), (6, 4)]
  {
    SidesGrow([0, 1], 2, []);
    sides := [(0, 1), (1, 2), (2, 0)];
    assert [0, 1] + [2] == [0, 1, 2];
    SidesGrow([0, 1, 2], 3, sides);
    sides := sides + [(2, 1), (1, 3), (3, 2)];
    assert [0, 1, 2] + [3] == [0, 1, 2, 3];
    SidesGrow([0, 1, 2, 3], 4, sides);
    sides := sides + [(2, 3), (3, 4), (4, 2)];
    assert [0, 1, 2, 3] + [4] == [0, 1, 2, 3, 4];
    SidesGrow([0, 1, 2, 3, 4], 5, sides);
    sides := sides + [(4, 3), (3, 5), (5, 4)];
    assert [0, 1, 2, 3, 4] + [5] == [0, 1, 2, 3, 4, 5];
    SidesGrow([0, 1, 2, 3, 4, 5], 6, sides);
    sides := sides + [(4, 5), (5, 6), (6, 4)];
    assert [0, 1, 2, 3, 4, 5] + [6] == CORNERS;
  }

  /** A side of the strip's triangles that no other of them walks back along is on the
      outline, and those are all. */
  lemma OutlineIff(i: nat, j: nat)
    ensures (i, j) in StripSides(CORNERS) && (j, i) !in StripSides(CORNERS) <==> (i, j) in OUTLINE
  {
    var sides := CornerSides();
    WalkedOnce(i, j, sides);
  }

  lemma WalkedOnce(i: nat, j: nat, sides: seq<(nat, nat)>)
    requires sides == [(0, 1), (1, 2), (2, 0)] + [(2, 1), (1, 3), (3, 2)] + [(2, 3), (3, 4), (4, 2)]
      + [(4, 3), (3, 5), (5, 4)] + [(4, 5), (5, 6), (6, 4)]
    ensures (i, j) in sides && (j, i) !in sides <==> (i, j) in OUTLINE
  {
  }

  /** The outline is walled, each wall walked the other way, except for the two sides
      towards other teeth; and nothing else is. */
  lemma OutlineIsWalled(p: Points, width: real, k: nat)
    requires k < 7
    ensures OUTLINE[k] == (5, 6) || OUTLINE[k] == (4, 2)
      || Quad(p[OUTLINE[k].1], p[OUTLINE[k].0], width) in Faces(p, width)
    ensures k != 0 && k != 2 ==>
      exists i, j :: (i, j) in OUTLINE && (i, j) != (5, 6) && (i, j) != (4, 2)
                  && Faces(p, width)[k] == Quad(p[j], p[i], width)
  {
    var f := Faces(p, width);
    assert f[1] == Quad(p[4], p[6], width) && f[3] == Quad(p[0], p[2], width) && f[4] == Quad(p[1], p[0], width);
    assert f[5] == Quad(p[3], p[1], width) && f[6] == Quad(p[5], p[3], width);
    assert (6, 4) in OUTLINE && (2, 0) in OUTLINE && (0, 1) in OUTLINE && (1, 3) in OUTLINE && (3, 5) in OUTLINE;
  }

  // ----------------------------------------------------------- from the vertices

  /** The sides of all triangles that are drawn from the vertices. */
  function DrawnSides(vertices: seq<Vertex>, strips: seq<Strip>): seq<(Position, Position)>
    requires forall s <- strips :: s.first + s.count <= |vertices|
  {
    if strips == [] then []
    else
      var s := strips[|strips| - 1];
      DrawnSides(vertices, strips[..|strips| - 1]) + StripSides(Positions(vertices[s.first..s.first + s.count]))
  }

  /** The strips cut the faces out of the vertices. */
  ghost predicate Cut(vertices: seq<Vertex>, strips: seq<Strip>, faces: seq<seq<Vertex>>) {
    && |strips| == |faces|
    && forall k | 0 <= k < |strips| ::
         var s := strips[k];
         s.first + s.count <= |vertices| && vertices[s.first..s.first + s.count] == faces[k]
  }

  lemma {:induction false} DrawnAreFaces(vertices: seq<Vertex>, strips: seq<Strip>, faces: seq<seq<Vertex>>)
    requires Cut(vertices, strips, faces)
    ensures (forall s <- strips :: s.first + s.count <= |vertices|) && DrawnSides(vertices, strips) == Sides(faces)
  {
    if strips != [] {
      var n := |strips| - 1;
      assert forall k | 0 <= k < n :: strips[..n][k] == strips[k] && faces[..n][k] == faces[k];
      DrawnAreFaces(vertices, strips[..n], faces[..n]);
    }
  }
}

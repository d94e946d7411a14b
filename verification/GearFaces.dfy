/**
 The shape of a gear in clients/es2gears.c: the seven points of a tooth, and the faces
 drawn between them, front and back.
 */
module GearFaces {

  const STRIPS_PER_TOOTH := 7
  const VERTICES_PER_TOOTH := 34

  datatype Point = Point(x: real, y: real)

  /** A position and a normal. */
  datatype Vertex = Vertex(x: real, y: real, z: real, nx: real, ny: real, nz: real)

  datatype Strip = Strip(first: nat, count: nat)

  /** The seven points of a tooth. */
  type Points = p: seq<Point> | |p| == 7 witness seq(7, _ => Point(0.0, 0.0))

  /** Cosines and sines all around the gear, four to a tooth. */
  type Directions = d: seq<Point> | |d| % 4 == 0

  function Scaled(r: real, p: Point): Point {
    Point(r * p.x, r * p.y)
  }

  /** Direction k, counted on beyond the last. */
  function Toward(dirs: Directions, k: nat): Point
    requires dirs != []
  {
    dirs[k % |dirs|]
  }

  /** The points of tooth i of a gear: r0 is the radius of its hole, r1 and r2 are half a
      tooth's depth less and more than its radius. */
  function Tooth(r0: real, r1: real, r2: real, dirs: Directions, i: nat): Points
    requires dirs != []
  {
    [Scaled(r2, Toward(dirs, 4 * i + 1)), Scaled(r2, Toward(dirs, 4 * i + 2)), Scaled(r1, Toward(dirs, 4 * i)),
     Scaled(r1, Toward(dirs, 4 * i + 3)), Scaled(r0, Toward(dirs, 4 * i)), Scaled(r1, Toward(dirs, 4 * i + 4)),
     Scaled(r0, Toward(dirs, 4 * i + 4))]
  }

  function Teeth(inner: real, outer: real, depth: real, dirs: Directions): (teeth: seq<Points>)
    ensures |teeth| == |dirs| / 4
  {
    seq(|dirs| / 4, i requires 0 <= i < |dirs| / 4 =>
      Tooth(inner, outer - depth / 2.0, outer + depth / 2.0, dirs, i))
  }

  function Corner(p: Point, z: real, nx: real, ny: real, nz: real): Vertex {
    Vertex(p.x, p.y, z, nx, ny, nz)
  }

  // ------------------------------------------------------------- one tooth, by faces

  function Front(p: Points, width: real): seq<Vertex> {
    seq(7, k requires 0 <= k < 7 => Corner(p[k], width * 0.5, 0.0, 0.0, 1.0))
  }

  function Back(p: Points, width: real): seq<Vertex> {
    seq(7, k requires 0 <= k < 7 => Corner(p[6 - k], -(width * 0.5), 0.0, 0.0, -1.0))
  }

  /** The face between two points, with its normal. */
  function Quad(a: Point, b: Point, width: real): seq<Vertex> {
    var nx, ny := a.y - b.y, -(a.x - b.x);
    [Corner(a, -(width * 0.5), nx, ny, 0.0), Corner(a, width * 0.5, nx, ny, 0.0),
     Corner(b, -(width * 0.5), nx, ny, 0.0), Corner(b, width * 0.5, nx, ny, 0.0)]
  }

  function Faces(p: Points, width: real): seq<seq<Vertex>> {
    [Front(p, width), Quad(p[4], p[6], width), Back(p, width)] + Rim(p, width)
  }

  function Rim(p: Points, width: real): seq<seq<Vertex>> {
    [Quad(p[0], p[2], width), Quad(p[1], p[0], width), Quad(p[3], p[1], width), Quad(p[5], p[3], width)]
  }

  function Joined(faces: seq<seq<Vertex>>): seq<Vertex> {
    if faces == [] then [] else Joined(faces[..|faces| - 1]) + faces[|faces| - 1]
  }

  /** All faces of the first n teeth. */
  function AllFaces(teeth: seq<Points>, width: real): seq<seq<Vertex>> {
    if teeth == [] then [] else AllFaces(teeth[..|teeth| - 1], width) + Faces(teeth[|teeth| - 1], width)
  }

  lemma JoinedOfOneMore(faces: seq<seq<Vertex>>, face: seq<Vertex>)
    ensures Joined(faces + [face]) == Joined(faces) + face
  {
    assert (faces + [face])[..|faces|] == faces;
  }

  lemma Regroup<T>(a: seq<T>, b: seq<T>, c: seq<T>)
    ensures a + b + c == a + (b + c)
  {
  }

  lemma {:induction false} JoinedOfConcatenation(a: seq<seq<Vertex>>, b: seq<seq<Vertex>>)
    ensures Joined(a + b) == Joined(a) + Joined(b)
  {
    if b == [] {
      assert a + b == a;
    } else {
      var most, last := b[..|b| - 1], b[|b| - 1];
      JoinedOfConcatenation(a, most);
      JoinedOfOneMore(a + most, last);
      assert b == most + [last];
      Regroup(a, most, [last]);
      Regroup(Joined(a), Joined(most), last);
    }
  }

  lemma FacesSize(p: Points, width: real)
    ensures |Joined(Faces(p, width))| == VERTICES_PER_TOOTH && |Faces(p, width)| == STRIPS_PER_TOOTH
  {
    var f := Faces(p, width);
    assert |Joined(f[..1])| == 7;
    assert f[..2][..1] == f[..1] && |Joined(f[..2])| == 11;
    assert f[..3][..2] == f[..2] && |Joined(f[..3])| == 18;
    assert f[..4][..3] == f[..3] && |Joined(f[..4])| == 22;
    assert f[..5][..4] == f[..4] && |Joined(f[..5])| == 26;
    assert f[..6][..5] == f[..5] && |Joined(f[..6])| == 30;
  }

  /** The arrays allocated are filled exactly. */
  lemma {:induction false} AllFacesSize(teeth: seq<Points>, width: real)
    ensures |AllFaces(teeth, width)| == STRIPS_PER_TOOTH * |teeth|
    ensures |Joined(AllFaces(teeth, width))| == VERTICES_PER_TOOTH * |teeth|
  {
    if teeth != [] {
      var n := |teeth| - 1;
      AllFacesSize(teeth[..n], width);
      FacesSize(teeth[n], width);
      JoinedOfConcatenation(AllFaces(teeth[..n], width), Faces(teeth[n], width));
    }
  }

  // ------------------------------------------------------------------------- shape

  /** The points met on the way along the rim of a tooth. */
  const RIM: seq<nat> := [2, 0, 1, 3, 5]

  predicate OnCircle(p: Point, r: real) {
    p.x * p.x + p.y * p.y == r * r
  }

  lemma ScaledOnCircle(r: real, d: Point)
    requires OnCircle(d, 1.0)
    ensures OnCircle(Scaled(r, d), r)
  {
    var x, y := d.x, d.y;
    assert (r * x) * (r * x) + (r * y) * (r * y) == r * r * (x * x + y * y);
  }

  /** The tip of a tooth is half its depth outside the gear's circle, its root as much
      inside, and the hole is round. */
  lemma ToothCircles(inner: real, outer: real, depth: real, dirs: Directions, i: nat)
    requires i < |dirs| / 4 && forall d <- dirs :: OnCircle(d, 1.0)
    ensures var p := Teeth(inner, outer, depth, dirs)[i];
      && OnCircle(p[0], outer + depth / 2.0) && OnCircle(p[1], outer + depth / 2.0)
      && OnCircle(p[2], outer - depth / 2.0) && OnCircle(p[3], outer - depth / 2.0)
      && OnCircle(p[5], outer - depth / 2.0) && OnCircle(p[4], inner) && OnCircle(p[6], inner)
  {
    forall k: nat ensures OnCircle(Toward(dirs, k), 1.0) {
      assert Toward(dirs, k) in dirs;
    }
    ScaledOnCircle(outer + depth / 2.0, Toward(dirs, 4 * i + 1));
    ScaledOnCircle(outer + depth / 2.0, Toward(dirs, 4 * i + 2));
    ScaledOnCircle(outer - depth / 2.0, Toward(dirs, 4 * i));
    ScaledOnCircle(outer - depth / 2.0, Toward(dirs, 4 * i + 3));
    ScaledOnCircle(outer - depth / 2.0, Toward(dirs, 4 * i + 4));
    ScaledOnCircle(inner, Toward(dirs, 4 * i));
    ScaledOnCircle(inner, Toward(dirs, 4 * i + 4));
  }

  /** In the same direction, or the opposite one, from the centre. */
  predicate InLine(p: Point, d: Point) {
    p.x * d.y == p.y * d.x
  }

  /** Along the rim the directions follow one another. */
  lemma RimGoesRound(r0: real, r1: real, r2: real, dirs: Directions, i: nat, j: nat)
    requires dirs != [] && j < 5
    ensures InLine(Tooth(r0, r1, r2, dirs, i)[RIM[j]], Toward(dirs, 4 * i + j))
  {
    ScaledInLine(if j == 1 || j == 2 then r2 else r1, Toward(dirs, 4 * i + j));
  }

  lemma ScaledInLine(r: real, d: Point)
    ensures InLine(Scaled(r, d), d)
  {
    var x, y := d.x, d.y;
    assert r * x * y == r * y * x;
  }

  // ------------------------------------------------------------------------ normals

  /** The normal of a quad stands on the edge between its points, is as long as it, and
      points to the right of the way from b to a. */
  lemma QuadNormal(a: Point, b: Point, width: real, k: nat)
    requires k < 4
    ensures var v := Quad(a, b, width)[k];
      var dx, dy := a.x - b.x, a.y - b.y;
      && v.nx * dx + v.ny * dy == 0.0 && v.nz == 0.0
      && dx * v.ny - dy * v.nx == -(dx * dx + dy * dy)
  {
    var dx, dy := a.x - b.x, a.y - b.y;
    assert Quad(a, b, width)[k].nx == dy && Quad(a, b, width)[k].ny == -dx;
    assert dy * dx + -dx * dy == 0.0;
    assert dx * -dx - dy * dy == -(dx * dx + dy * dy);
  }

  /** The normals of front and back point away from the middle of the gear. */
  lemma FlatNormals(p: Points, width: real, k: nat)
    requires k < 7 && width > 0.0
    ensures Front(p, width)[k].nz * Front(p, width)[k].z > 0.0 && Back(p, width)[k].nz * Back(p, width)[k].z > 0.0
  {
  }
}

/**
 The vertices of a gear in clients/es2gears.c, filled in tooth by tooth through a
 moving pointer, and the triangle strips cut from them.
 */
module GearStrips {
  import opened GearFaces
  import opened GearSurface

  // ------------------------------------------------------------------------ strips

  /** The strip that draws face k. */
  function StripOf(faces: seq<seq<Vertex>>, k: nat): Strip
    requires k < |faces|
  {
    Strip(|Joined(faces[..k])|, |faces[k]|)
  }

  /** A strip's vertices are its face. */
  lemma {:induction false} StripShowsFace(faces: seq<seq<Vertex>>, k: nat)
    requires k < |faces|
    ensures var s := StripOf(faces, k);
      s.first + s.count <= |Joined(faces)| && Joined(faces)[s.first..s.first + s.count] == faces[k]
  {
    var most := faces[..|faces| - 1];
    if k < |most| {
      StripShowsFace(most, k);
      assert most[..k] == faces[..k];
      var s := StripOf(faces, k);
      assert Joined(faces)[s.first..s.first + s.count] == Joined(most)[s.first..s.first + s.count];
    } else {
      assert faces[..k] == most;
    }
  }

  // ----------------------------------------------------------------------- filling in

  class Gear {
    const vertices: array<Vertex>
    const strips: array<Strip>
    var v: nat
    var cur_strip: nat
    /** The faces filled in so far. */
    ghost var faces: seq<seq<Vertex>>

    ghost predicate Filled()
      reads this, vertices, strips
    {
      && v <= vertices.Length && cur_strip <= strips.Length
      && vertices[..v] == Joined(faces) && cur_strip == |faces|
      && forall k | 0 <= k < cur_strip :: strips[k] == StripOf(faces, k)
    }

    constructor (teeth: nat)
      ensures Filled() && faces == [] && v == cur_strip == 0 && fresh(vertices) && fresh(strips)
      ensures vertices.Length == VERTICES_PER_TOOTH * teeth && strips.Length == STRIPS_PER_TOOTH * teeth
    {
      vertices := new Vertex[VERTICES_PER_TOOTH * teeth](_ => Vertex(0.0, 0.0, 0.0, 0.0, 0.0, 0.0));
      strips := new Strip[STRIPS_PER_TOOTH * teeth](_ => Strip(0, 0));
      v, cur_strip, faces := 0, 0, [];
    }

    /** One strip: start, a vertex at a time, end. */
    method AddStrip(face: seq<Vertex>)
      requires Filled() && v + |face| <= vertices.Length && cur_strip < strips.Length
      modifies this, vertices, strips
      ensures Filled() && faces == old(faces) + [face] && v == old(v) + |face| && cur_strip == old(cur_strip) + 1
    {
      var first := v;
      for i := 0 to |face|
        invariant v == first + i && cur_strip == old(cur_strip) && faces == old(faces)
        invariant vertices[..v] == Joined(faces) + face[..i]
        invariant strips[..] == old(strips[..])
      {
        vertices[v] := face[i];
        v := v + 1;
        assert face[..i + 1] == face[..i] + [face[i]];
      }
      assert face[..|face|] == face;
      strips[cur_strip] := Strip(first, v - first);
      cur_strip := cur_strip + 1;
      StripsGrow(faces, face);
      faces := faces + [face];
    }

    /** The outer face of a tooth. */
    method AddRim(p: Points, width: real)
      requires Filled() && v + 16 <= vertices.Length && cur_strip + 4 <= strips.Length
      modifies this, vertices, strips
      ensures Filled() && faces == old(faces) + Rim(p, width) && v == old(v) + 16 && cur_strip == old(cur_strip) + 4
    {
      AddStrip(Quad(p[0], p[2], width));
      AddStrip(Quad(p[1], p[0], width));
      AddStrip(Quad(p[3], p[1], width));
      AddStrip(Quad(p[5], p[3], width));
    }

    method AddTooth(p: Points, width: real)
      requires Filled()
      requires v + VERTICES_PER_TOOTH <= vertices.Length && cur_strip + STRIPS_PER_TOOTH <= strips.Length
      modifies this, vertices, strips
      ensures Filled() && faces == old(faces) + Faces(p, width)
      ensures v == old(v) + VERTICES_PER_TOOTH && cur_strip == old(cur_strip) + STRIPS_PER_TOOTH
    {
      AddStrip(Front(p, width));
      AddStrip(Quad(p[4], p[6], width));
      AddStrip(Back(p, width));
      AddRim(p, width);
    }
  }

  lemma StripsGrow(faces: seq<seq<Vertex>>, face: seq<Vertex>)
    ensures Joined(faces + [face]) == Joined(faces) + face
    ensures forall k | 0 <= k < |faces| :: StripOf(faces + [face], k) == StripOf(faces, k)
    ensures StripOf(faces + [face], |faces|) == Strip(|Joined(faces)|, |face|)
  {
    assert (faces + [face])[..|faces|] == faces;
    assert forall k | 0 <= k < |faces| :: (faces + [face])[..k] == faces[..k];
  }

  /** Once all is filled in, the strips cut the faces out of the vertices. */
  lemma FilledIsCut(gear: Gear)
    requires gear.Filled() && gear.v == gear.vertices.Length && gear.cur_strip == gear.strips.Length
    ensures Cut(gear.vertices[..], gear.strips[..], gear.faces)
  {
    assert gear.vertices[..] == gear.vertices[..gear.v];
    forall k | 0 <= k < gear.strips.Length
      ensures var s := gear.strips[..][k];
        s.first + s.count <= |gear.vertices[..]| && gear.vertices[..][s.first..s.first + s.count] == gear.faces[k]
    {
      StripShowsFace(gear.faces, k);
    }
  }

  lemma FilledIsClosed(gear: Gear, inner: real, outer: real, width: real, depth: real, dirs: Directions)
    requires gear.Filled() && gear.v == gear.vertices.Length && gear.cur_strip == gear.strips.Length
    requires gear.faces == AllFaces(Teeth(inner, outer, depth, dirs), width)
    ensures forall s <- gear.strips[..] :: s.first + s.count <= gear.vertices.Length
    ensures Closed(DrawnSides(gear.vertices[..], gear.strips[..]))
  {
    FilledIsCut(gear);
    DrawnAreFaces(gear.vertices[..], gear.strips[..], gear.faces);
    GearIsClosed(inner, outer, depth, dirs, width);
  }

  lemma FacesOfNext(teeth: seq<Points>, i: nat, p: Points, width: real)
    requires i < |teeth| && teeth[i] == p
    ensures AllFaces(teeth[..i + 1], width) == AllFaces(teeth[..i], width) + Faces(p, width)
  {
    assert teeth[..i + 1][..i] == teeth[..i];
  }

  method FillTeeth(gear: Gear, r0: real, r1: real, r2: real, width: real, dirs: Directions, n: nat,
                   ghost teeth: seq<Points>)
    requires gear.Filled() && gear.faces == [] && gear.v == gear.cur_strip == 0
    requires gear.vertices.Length == VERTICES_PER_TOOTH * n && gear.strips.Length == STRIPS_PER_TOOTH * n
    requires |teeth| == n && (n > 0 ==> dirs != [])
    requires forall i | 0 <= i < n :: teeth[i] == Tooth(r0, r1, r2, dirs, i)
    modifies gear, gear.vertices, gear.strips
    ensures gear.Filled() && gear.faces == AllFaces(teeth, width)
    ensures gear.v == gear.vertices.Length && gear.cur_strip == gear.strips.Length
  {
    for i := 0 to n
      invariant gear.Filled() && gear.faces == AllFaces(teeth[..i], width)
      invariant gear.v == VERTICES_PER_TOOTH * i && gear.cur_strip == STRIPS_PER_TOOTH * i
    {
      var p := Tooth(r0, r1, r2, dirs, i);
      FacesOfNext(teeth, i, p, width);
      gear.AddTooth(p, width);
    }
    assert teeth[..n] == teeth;
  }

  /** The gear that is drawn is a closed surface. */
  method CreateGear(inner: real, outer: real, width: real, depth: real, dirs: Directions) returns (gear: Gear)
    ensures fresh(gear) && gear.Filled() && gear.faces == AllFaces(Teeth(inner, outer, depth, dirs), width)
    ensures gear.v == gear.vertices.Length && gear.cur_strip == gear.strips.Length
    ensures forall s <- gear.strips[..] :: s.first + s.count <= gear.vertices.Length
    ensures Closed(DrawnSides(gear.vertices[..], gear.strips[..]))
  {
    gear := new Gear(|dirs| / 4);
    var r0, r1, r2 := inner, outer - depth / 2.0, outer + depth / 2.0;
    FillTeeth(gear, r0, r1, r2, width, dirs, |dirs| / 4, Teeth(inner, outer, depth, dirs));
    FilledIsClosed(gear, inner, outer, width, depth, dirs);
  }
}

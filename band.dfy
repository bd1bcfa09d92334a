/** The band stitcher: two polylines of sample points become one vertex
    list and an open strip of triangles between them (`make_band_geometry`). */
module Band {

  /** A triangle as three indices into a mesh's vertex list, in winding order. */
  datatype Face = Face(a: nat, b: nat, c: nat) {

    predicate Has(x: nat) {
      a == x || b == x || c == x
    }

    /** The directed edge u -> v is one of a -> b, b -> c, c -> a. */
    predicate HasEdge(u: nat, v: nat) {
      (a == u && b == v) || (b == u && c == v) || (c == u && a == v)
    }
  }

  /** What the builder hands to the renderer: vertices and indexed faces. */
  datatype Mesh<T> = Mesh(vertices: seq<T>, faces: seq<Face>)

  /** Every corner of every face names an existing vertex. */
  predicate WellFormed<T>(g: Mesh<T>) {
    forall j :: 0 <= j < |g.faces| ==>
      g.faces[j].a < |g.vertices| && g.faces[j].b < |g.vertices| && g.faces[j].c < |g.vertices|
  }

  /** Number of quads between two curves whose first has `m` points. */
  function QuadCount(m: nat): nat {
    if m >= 1 then m - 1 else 0
  }

  /** The two triangles of quad `i`: first curve at indices [0, m), second at [m, ...). */
  function QuadFaces(m: nat, i: nat): seq<Face> {
    [Face(i, i + m, i + m + 1), Face(i, i + m + 1, i + 1)]
  }

  /** The faces of quads 0 .. count-1, in the order they are appended. */
  function StripFaces(m: nat, count: nat): (faces: seq<Face>)
    ensures |faces| == 2 * count
    decreases count
  {
    if count == 0 then [] else StripFaces(m, count - 1) + QuadFaces(m, count - 1)
  }

  /** The whole face list of a band whose first curve has `m` points. */
  function BandFaces(m: nat): (faces: seq<Face>)
    ensures |faces| == if m <= 1 then 0 else 2 * (m - 1)
  {
    StripFaces(m, QuadCount(m))
  }

  /** The mesh built from two curves: `vertices1` then `vertices2`, stitched. */
  function BandMesh<T>(vertices1: seq<T>, vertices2: seq<T>): Mesh<T> {
    Mesh(vertices1 + vertices2, BandFaces(|vertices1|))
  }

  /** Face `j` of the strip is triangle `j % 2` of quad `j / 2`. */
  lemma {:induction false} StripFacesAt(m: nat, count: nat, j: nat)
    requires j < 2 * count
    ensures StripFaces(m, count)[j] == QuadFaces(m, j / 2)[j % 2]
  {
    if j < 2 * (count - 1) {
      StripFacesAt(m, count - 1, j);
    }
  }

  /** Exactly two faces per quad, and quad `i` is faces `2i` and `2i+1`:
      (i, i+m, i+m+1) then (i, i+m+1, i+1). */
  lemma BandFaceAt(m: nat, i: nat)
    requires i < QuadCount(m)
    ensures |BandFaces(m)| == 2 * QuadCount(m)
    ensures BandFaces(m)[2 * i] == Face(i, i + m, i + m + 1)
    ensures BandFaces(m)[2 * i + 1] == Face(i, i + m + 1, i + 1)
  {
    StripFacesAt(m, QuadCount(m), 2 * i);
    StripFacesAt(m, QuadCount(m), 2 * i + 1);
  }

  /** Face `j` of the band, for any valid `j`. */
  lemma BandFaceIndex(m: nat, j: nat)
    requires j < |BandFaces(m)|
    ensures j / 2 < QuadCount(m)
    ensures BandFaces(m)[j] == QuadFaces(m, j / 2)[j % 2]
  {
    StripFacesAt(m, QuadCount(m), j);
  }

  /** The largest index the band uses is 2m-1, the last point of the second
      curve; so every index is in range exactly when the second curve is at
      least as long as the first (or there are no faces). */
  lemma BandWellFormedIff<T>(vertices1: seq<T>, vertices2: seq<T>)
    ensures WellFormed(BandMesh(vertices1, vertices2)) <==>
            (|vertices1| <= 1 || |vertices2| >= |vertices1|)
  {
    var m, n := |vertices1|, |vertices2|;
    var g := BandMesh(vertices1, vertices2);
    if m <= 1 || n >= m {
      forall j | 0 <= j < |g.faces|
        ensures g.faces[j].a < |g.vertices| && g.faces[j].b < |g.vertices| && g.faces[j].c < |g.vertices|
      {
        BandFaceIndex(m, j);
      }
    } else {
      BandFaceAt(m, m - 2);
      assert g.faces[2 * (m - 2)].c == 2 * m - 1 >= |g.vertices|;
    }
  }

  /** Quad `i` joins points i and i+1 of the first curve to points i and i+1
      of the second: the first triangle takes one corner from the first curve
      and two from the second, the other triangle two and one. This holds
      whenever the second curve is at least as long as the first, the case
      in which `BandWellFormedIff` puts every index in range. */
  lemma BandQuadCorners<T>(vertices1: seq<T>, vertices2: seq<T>, i: nat)
    requires |vertices2| >= |vertices1|
    requires i < QuadCount(|vertices1|)
    ensures var g := BandMesh(vertices1, vertices2);
      var f1, f2 := g.faces[2 * i], g.faces[2 * i + 1];
      2 * i + 1 < |g.faces| &&
      f1.a < |g.vertices| && f1.b < |g.vertices| && f1.c < |g.vertices| &&
      f2.a < |g.vertices| && f2.b < |g.vertices| && f2.c < |g.vertices| &&
      g.vertices[f1.a] == vertices1[i] &&
      g.vertices[f1.b] == vertices2[i] &&
      g.vertices[f1.c] == vertices2[i + 1] &&
      g.vertices[f2.a] == vertices1[i] &&
      g.vertices[f2.b] == vertices2[i + 1] &&
      g.vertices[f2.c] == vertices1[i + 1]
  {
    BandFaceAt(|vertices1|, i);
  }

  /** The two triangles of quad `i` share the diagonal between point i of the
      first curve and point i+1 of the second, walked in opposite directions,
      and quad `i` shares the rung between the points i+1 with quad `i+1`. */
  lemma SharedEdges(m: nat, i: nat)
    requires i < QuadCount(m)
    ensures BandFaces(m)[2 * i].HasEdge(i + m + 1, i)
    ensures BandFaces(m)[2 * i + 1].HasEdge(i, i + m + 1)
    ensures i + 1 < QuadCount(m) ==>
      BandFaces(m)[2 * i + 1].HasEdge(i + m + 1, i + 1) &&
      BandFaces(m)[2 * i + 2].HasEdge(i + 1, i + m + 1)
  {
    BandFaceAt(m, i);
    if i + 1 < QuadCount(m) {
      BandFaceAt(m, i + 1);
    }
  }

  /** No directed edge is used by two faces: the strip is consistently
      wound and has no repeated triangle. */
  lemma DirectedEdgesUnique(m: nat, j1: nat, j2: nat, u: nat, v: nat)
    requires j1 < |BandFaces(m)| && j2 < |BandFaces(m)|
    requires BandFaces(m)[j1].HasEdge(u, v) && BandFaces(m)[j2].HasEdge(u, v)
    ensures j1 == j2
  {
    BandFaceIndex(m, j1);
    BandFaceIndex(m, j2);
  }

  /** The last point of the first curve, m-1, is a corner of exactly one
      face: the second triangle of the last quad. */
  lemma LastPointOfFirstCurve(m: nat, j: nat)
    requires m >= 2 && j < |BandFaces(m)|
    ensures BandFaces(m)[j].Has(m - 1) <==> j == 2 * m - 3
  {
    BandFaceIndex(m, j);
  }

  /** The last point of the second curve, 2m-1, is a corner only of the two
      faces of the last quad. */
  lemma LastPointOfSecondCurve(m: nat, j: nat)
    requires m >= 2 && j < |BandFaces(m)|
    ensures BandFaces(m)[j].Has(2 * m - 1) <==> j / 2 == m - 2
  {
    BandFaceIndex(m, j);
  }

  /** The strip is open: with three or more points per curve no face joins
      the last point of a curve to its first. */
  lemma StripIsOpen(m: nat, j: nat)
    requires m >= 3 && j < |BandFaces(m)|
    ensures !(BandFaces(m)[j].Has(0) && BandFaces(m)[j].Has(m - 1))
    ensures !(BandFaces(m)[j].Has(m) && BandFaces(m)[j].Has(2 * m - 1))
  {
    BandFaceIndex(m, j);
  }

  /** `make_band_geometry`: copy `vertices1 ++ vertices2` into the vertex list
      one at a time, then append the two triangles of each quad in order. */
  method MakeBandGeometry<T>(vertices1: seq<T>, vertices2: seq<T>) returns (g: Mesh<T>)
    ensures |g.vertices| == |vertices1| + |vertices2|
    ensures forall k :: 0 <= k < |vertices1| ==> g.vertices[k] == vertices1[k]
    ensures forall k :: 0 <= k < |vertices2| ==> g.vertices[|vertices1| + k] == vertices2[k]
    ensures |g.faces| == 2 * QuadCount(|vertices1|)
    ensures forall i :: 0 <= i < QuadCount(|vertices1|) ==>
      g.faces[2 * i] == Face(i, i + |vertices1|, i + |vertices1| + 1) &&
      g.faces[2 * i + 1] == Face(i, i + |vertices1| + 1, i + 1)
    ensures g == BandMesh(vertices1, vertices2)
  {
    var vs := vertices1 + vertices2;
    var m := |vertices1|;
    var vertices: seq<T> := [];
    var faces: seq<Face> := [];

    var i := 0;
    while i < |vs|
      invariant 0 <= i <= |vs|
      invariant vertices == vs[..i]
    {
      vertices := vertices + [vs[i]];
      i := i + 1;
    }

    i := 0;
    while i < m - 1
      invariant 0 <= i <= QuadCount(m)
      invariant faces == StripFaces(m, i)
    {
      faces := faces + [Face(i, i + m, i + m + 1)];
      faces := faces + [Face(i, i + m + 1, i + 1)];
      i := i + 1;
    }

    g := Mesh(vertices, faces);
    assert vertices == vs;
    forall q | 0 <= q < QuadCount(m)
      ensures g.faces[2 * q] == Face(q, q + m, q + m + 1) && g.faces[2 * q + 1] == Face(q, q + m + 1, q + 1)
    {
      BandFaceAt(m, q);
    }
  }
}

/** The fibre sample buffers: one loop over the sample indices 0 .. divisions,
    emitting either three flat numbers per sample (`getFiberPoints`) or one
    3-vector per sample (`get_fiber_vertices`). The per-sample coordinates come
    from floating-point trigonometry, so the formula is a parameter `sample`
    of (point, i, divisions); the model is about the buffers' shape. */
module Fiber {

  /** A 3-vector whose coordinates are numbers of type N. */
  datatype Vec3<N> = Vec3(x: N, y: N, z: N)

  /** The default division count of `get_fiber_vertices`, which the sweep uses. */
  const VerticesDefaultDivisions: int := 250

  /** The loop `for (i = 0; i < divisions+1; i++)` runs this many times. */
  function SampleCount(divisions: int): nat {
    if divisions + 1 > 0 then divisions + 1 else 0
  }

  /** The samples of one fibre, in index order. */
  function FiberSamples<P, N>(sample: (P, int, int) -> Vec3<N>, point: P, divisions: int): (vs: seq<Vec3<N>>)
  {
    seq(SampleCount(divisions), i => sample(point, i, divisions))
  }

  /** A vertex list written out as x, y, z, x, y, z, ... */
  function Flatten<N>(vs: seq<Vec3<N>>): seq<N>
    decreases |vs|
  {
    if vs == [] then []
    else
      var v := vs[|vs| - 1];
      Flatten(vs[..|vs| - 1]) + [v.x, v.y, v.z]
  }

  /** Coordinate k (0 = x, 1 = y, 2 = z) of a vector. */
  function Coord<N>(v: Vec3<N>, k: nat): N
    requires k < 3
  {
    if k == 0 then v.x else if k == 1 then v.y else v.z
  }

  /** The flat list holds three numbers per vertex, and number 3i+k is
      coordinate k of vertex i. */
  lemma {:induction false} FlattenAt<N>(vs: seq<Vec3<N>>, i: nat, k: nat)
    requires i < |vs| && k < 3
    ensures |Flatten(vs)| == 3 * |vs|
    ensures Flatten(vs)[3 * i + k] == Coord(vs[i], k)
    decreases |vs|
  {
    var init := vs[..|vs| - 1];
    FlattenLength(init);
    if i < |vs| - 1 {
      FlattenAt(init, i, k);
    }
  }

  lemma {:induction false} FlattenLength<N>(vs: seq<Vec3<N>>)
    ensures |Flatten(vs)| == 3 * |vs|
    decreases |vs|
  {
    if vs != [] {
      FlattenLength(vs[..|vs| - 1]);
    }
  }

  /** `getFiberPoints`: push the three coordinates of each sample, then copy
      the numbers into a 32-bit float array, each number converted by `round`. */
  method GetFiberPoints<P, N>(sample: (P, int, int) -> Vec3<N>, round: N -> N, point: P, divisions: int)
    returns (flat: seq<N>)
    ensures |flat| == 3 * SampleCount(divisions)
    ensures forall i, k :: 0 <= i < SampleCount(divisions) && 0 <= k < 3 ==>
      flat[3 * i + k] == round(Coord(sample(point, i, divisions), k))
  {
    ghost var samples := FiberSamples(sample, point, divisions);
    var points: seq<N> := [];
    var i := 0;
    while i < divisions + 1
      invariant 0 <= i <= SampleCount(divisions)
      invariant points == Flatten(samples[..i])
    {
      var v := sample(point, i, divisions);
      points := points + [v.x, v.y, v.z];
      assert samples[..i + 1][..i] == samples[..i];
      i := i + 1;
    }
    flat := Float32From(round, points);
    assert samples[..i] == samples;
    FlattenLength(samples);
    forall j, k | 0 <= j < SampleCount(divisions) && 0 <= k < 3
      ensures flat[3 * j + k] == round(Coord(sample(point, j, divisions), k))
    {
      FlattenAt(samples, j, k);
    }
  }

  /** `Float32Array.from`: a copy of the numbers, each converted by `round`. */
  method Float32From<N>(round: N -> N, points: seq<N>) returns (out: seq<N>)
    ensures |out| == |points|
    ensures forall j :: 0 <= j < |points| ==> out[j] == round(points[j])
  {
    out := [];
    var j := 0;
    while j < |points|
      invariant 0 <= j <= |points|
      invariant |out| == j
      invariant forall q :: 0 <= q < j ==> out[q] == round(points[q])
    {
      out := out + [round(points[j])];
      j := j + 1;
    }
  }

  /** `get_fiber_vertices`: push one vector per sample. */
  method GetFiberVertices<P, N>(sample: (P, int, int) -> Vec3<N>, point: P, divisions: int)
    returns (vertices: seq<Vec3<N>>)
    ensures |vertices| == SampleCount(divisions)
    ensures forall i :: 0 <= i < |vertices| ==> vertices[i] == sample(point, i, divisions)
    ensures vertices == FiberSamples(sample, point, divisions)
  {
    vertices := [];
    var i := 0;
    while i < divisions + 1
      invariant 0 <= i <= SampleCount(divisions)
      invariant |vertices| == i
      invariant forall q :: 0 <= q < i ==> vertices[q] == sample(point, q, divisions)
    {
      vertices := vertices + [sample(point, i, divisions)];
      i := i + 1;
    }
  }

  /** Both buffers come from one formula: for the same point and division
      count, number 3i+k of the flat buffer is coordinate k of vertex i of
      the vertex list, converted to a 32-bit float. */
  method FiberBuffers<P, N>(sample: (P, int, int) -> Vec3<N>, round: N -> N, point: P, divisions: int)
    returns (flat: seq<N>, vertices: seq<Vec3<N>>)
    ensures |flat| == 3 * |vertices|
    ensures forall i, k :: 0 <= i < |vertices| && 0 <= k < 3 ==> flat[3 * i + k] == round(Coord(vertices[i], k))
  {
    flat := GetFiberPoints(sample, round, point, divisions);
    vertices := GetFiberVertices(sample, point, divisions);
  }
}

/** The sweep driver `make_fibers_surface_at_theta`: sample `steps` base
    points along a meridian arc, compute the fibre over each, and stitch one
    band between each pair of consecutive fibres. Where each base point lies
    is floating-point trigonometry, so it is a parameter `pointAt(i, steps)`. */
module Sweep {
  import opened Band
  import opened Fiber

  /** The loop `for (i = 0; i < steps; i++)` runs this many times. */
  function FiberCount(steps: int): nat {
    if steps > 0 then steps else 0
  }

  /** The fibre over sample `i`, as `get_fiber_vertices` builds it with its
      default division count. */
  function SweepFiber<P, N>(sample: (P, int, int) -> Vec3<N>, pointAt: (int, int) -> P, steps: int, i: int): seq<Vec3<N>> {
    FiberSamples(sample, pointAt(i, steps), VerticesDefaultDivisions)
  }

  /** The (first, second) fibre indices of each band, written with the
      modulo of the source: `(i, (i+1) % fibers.length)` for i below
      `fibers.length - 1`. */
  function FiberPairs(count: nat): seq<(nat, nat)> {
    seq(if count >= 1 then count - 1 else 0, i requires 0 <= i < count - 1 => (i, (i + 1) % count))
  }

  /** The modulo never wraps: band `i` joins fibre `i` to fibre `i+1`, and no
      band joins the last fibre back to the first. */
  lemma FiberPairsNeverWrap(count: nat)
    ensures |FiberPairs(count)| == if count >= 1 then count - 1 else 0
    ensures forall i :: 0 <= i < |FiberPairs(count)| ==> FiberPairs(count)[i] == (i, i + 1)
    ensures count >= 1 ==> (count - 1, 0) !in FiberPairs(count)
  {
    var pairs := FiberPairs(count);
    forall i | 0 <= i < |pairs|
      ensures pairs[i] == (i, i + 1)
    {
      assert (i + 1) % count == i + 1;
    }
  }

  /** The bands the sweep adds to the scene, one per fibre pair. */
  function SweepBands<P, N>(sample: (P, int, int) -> Vec3<N>, pointAt: (int, int) -> P, steps: int): seq<Mesh<Vec3<N>>> {
    var pairs := FiberPairs(FiberCount(steps));
    seq(|pairs|, j requires 0 <= j < |pairs| =>
      BandMesh(SweepFiber(sample, pointAt, steps, pairs[j].0), SweepFiber(sample, pointAt, steps, pairs[j].1)))
  }

  /** Every fibre of the sweep has the same number of samples, so every face
      index of every band names an existing vertex. */
  lemma SweepBandsWellFormed<P, N>(sample: (P, int, int) -> Vec3<N>, pointAt: (int, int) -> P, steps: int, j: nat)
    requires j < |SweepBands(sample, pointAt, steps)|
    ensures WellFormed(SweepBands(sample, pointAt, steps)[j])
  {
    var pairs := FiberPairs(FiberCount(steps));
    BandWellFormedIff(SweepFiber(sample, pointAt, steps, pairs[j].0), SweepFiber(sample, pointAt, steps, pairs[j].1));
  }

  /** Consecutive bands share a fibre: the second curve of band `j` is the
      first curve of band `j+1`, so the bands form one continuous surface. */
  lemma SweepBandsChain<P, N>(sample: (P, int, int) -> Vec3<N>, pointAt: (int, int) -> P, steps: int, j: nat)
    requires j + 1 < |SweepBands(sample, pointAt, steps)|
    ensures var bands := SweepBands(sample, pointAt, steps);
      var m := SampleCount(VerticesDefaultDivisions);
      |bands[j].vertices| == 2 * m && |bands[j + 1].vertices| == 2 * m &&
      bands[j].vertices[m..] == bands[j + 1].vertices[..m]
  {
    FiberPairsNeverWrap(FiberCount(steps));
    var bands := SweepBands(sample, pointAt, steps);
    var m := SampleCount(VerticesDefaultDivisions);
    var shared := SweepFiber(sample, pointAt, steps, j + 1);
    assert bands[j].vertices == SweepFiber(sample, pointAt, steps, j) + shared;
    assert bands[j + 1].vertices == shared + SweepFiber(sample, pointAt, steps, j + 2);
  }

  /** `make_fibers_surface_at_theta`: collect the fibres and the base points
      (the points go to the inset line), then build a band for each pair
      `(i, (i+1) % fibers.length)` with i below `fibers.length - 1`. */
  method MakeFibersSurfaceAtTheta<P, N>(sample: (P, int, int) -> Vec3<N>, pointAt: (int, int) -> P, steps: int)
    returns (insetPoints: seq<P>, bands: seq<Mesh<Vec3<N>>>)
    ensures |insetPoints| == FiberCount(steps)
    ensures forall i :: 0 <= i < |insetPoints| ==> insetPoints[i] == pointAt(i, steps)
    ensures |bands| == if steps >= 1 then steps - 1 else 0
    ensures forall j :: 0 <= j < |bands| ==>
      bands[j] == BandMesh(SweepFiber(sample, pointAt, steps, j), SweepFiber(sample, pointAt, steps, j + 1))
    ensures bands == SweepBands(sample, pointAt, steps)
  {
    var fibers: seq<seq<Vec3<N>>> := [];
    insetPoints := [];
    var i := 0;
    while i < steps
      invariant 0 <= i <= FiberCount(steps)
      invariant |fibers| == i && |insetPoints| == i
      invariant forall q :: 0 <= q < i ==> insetPoints[q] == pointAt(q, steps)
      invariant forall q :: 0 <= q < i ==> fibers[q] == SweepFiber(sample, pointAt, steps, q)
    {
      var point := pointAt(i, steps);
      var fiberVertices := GetFiberVertices(sample, point, VerticesDefaultDivisions);
      fibers := fibers + [fiberVertices];
      insetPoints := insetPoints + [point];
      i := i + 1;
    }

    ghost var pairs := FiberPairs(|fibers|);
    FiberPairsNeverWrap(|fibers|);
    bands := [];
    i := 0;
    while i < |fibers| - 1
      invariant 0 <= i <= |pairs|
      invariant |bands| == i
      invariant forall j :: 0 <= j < i ==>
        bands[j] == BandMesh(fibers[pairs[j].0], fibers[pairs[j].1])
    {
      var fiber0 := fibers[i];
      var fiber1 := fibers[(i + 1) % |fibers|];
      var meshGeometry := MakeBandGeometry(fiber0, fiber1);
      bands := bands + [meshGeometry];
      i := i + 1;
    }
    assert |fibers| == FiberCount(steps);
    ghost var spec := SweepBands(sample, pointAt, steps);
    forall j | 0 <= j < |bands|
      ensures bands[j] == spec[j]
      ensures bands[j] == BandMesh(SweepFiber(sample, pointAt, steps, j), SweepFiber(sample, pointAt, steps, j + 1))
    {
      assert pairs[j] == (j, j + 1);
    }
    assert |bands| == |spec|;
  }
}

/** Collision shapes of links, and how the cloud builder reads a mesh's
    flat vertex array. */
module Shapes {
  import opened Geometry

  /** The shape tags other than MESH; the cloud builder treats them all alike. */
  datatype PrimitiveKind = Sphere | Cylinder | Cone | Box | Plane | Octree | UnknownShape

  /** A link's collision shape. A mesh holds its vertices as one flat array
      x0, y0, z0, x1, y1, z1, ... together with its vertex count. */
  datatype Shape =
    | Mesh(vertices: seq<real>, vertexCount: nat)
    | Primitive(kind: PrimitiveKind)

  /** A link that has collision geometry: its name and its shape. */
  datatype Link = Link(name: string, shape: Shape)

  /** The geometry library's invariant on meshes: the flat array holds at
      least three coordinates per vertex. */
  predicate WellFormed(s: Shape)
  {
    s.Mesh? ==> 3 * s.vertexCount <= |s.vertices|
  }

  /** Number of vertices a shape contributes; zero for every non-mesh shape. */
  function VertexCount(s: Shape): nat
  {
    if s.Mesh? then s.vertexCount else 0
  }

  /** The k-th vertex of a flat array: coordinates 3k, 3k+1 and 3k+2.
      That reading them this way loses nothing is `Cloud.FlattenVertices`. */
  function Vertex(vertices: seq<real>, k: nat): (v: Vec3)
    requires 3 * k + 2 < |vertices|
    ensures vertices[3 * k..3 * k + 3] == [v.x, v.y, v.z]
  {
    Vec3(vertices[3 * k], vertices[3 * k + 1], vertices[3 * k + 2])
  }

  /** The indices of the flat array read for the first n vertices
      (i = 0, 3, 6, ... reads i, i+1, i+2): exactly the indices below 3n,
      so every read is in bounds as soon as 3n <= |vertices|. The loop of
      `Publisher.CloudNode.AppendMesh` keeps the set of indices it has read
      equal to this set. */
  function StrideReads(n: nat): (r: set<nat>)
    ensures forall j: nat :: j in r <==> j < 3 * n
  {
    if n == 0 then {} else StrideReads(n - 1) + {3 * (n - 1), 3 * (n - 1) + 1, 3 * (n - 1) + 2}
  }

  /** Every index a well-formed mesh's loop reads lies inside its array. */
  lemma StrideReadsInBounds(s: Shape)
    requires s.Mesh? && WellFormed(s)
    ensures forall j :: j in StrideReads(s.vertexCount) ==> j < |s.vertices|
  {
  }

  // ---------------------------------------------------------------------
  // The loop bound as written: `3*mesh->vertex_count` is a product of
  // unsigned 32-bit integers, so it wraps around modulo 2^32.

  const UInt32Modulus: nat := 0x1_0000_0000

  /** Number of iterations of `for (i = 0; i < bound; i = i + 3)`. */
  function StrideIterations(bound: nat): (k: nat)
    ensures bound <= 3 * k < bound + 3
  {
    (bound + 2) / 3
  }

  /** The loop bound the source computes for a 32-bit vertex count. */
  function LoopBoundAsWritten(n: nat): (b: nat)
    requires n < UInt32Modulus
    ensures b < UInt32Modulus
    ensures 3 * n < UInt32Modulus ==> b == 3 * n
    ensures 3 * n >= UInt32Modulus ==> b < 3 * n - 0xFFFF_FFFF
  {
    (3 * n) % UInt32Modulus
  }

  /** Points the as-written loop appends for a mesh of n vertices: never
      more than one per vertex. */
  function PointsAsWritten(n: nat): (r: nat)
    requires n < UInt32Modulus
    ensures r <= n
  {
    StrideIterations(LoopBoundAsWritten(n))
  }

  /** Below the wrap-around the as-written loop emits one point per vertex. */
  lemma AsWrittenExactBelowWrap(n: nat)
    requires 3 * n < UInt32Modulus
    ensures PointsAsWritten(n) == n
  {
  }

  /** From 2^32 / 3 vertices on, the as-written loop silently drops vertices. */
  lemma AsWrittenDropsVertices(n: nat)
    requires n < UInt32Modulus && 3 * n >= UInt32Modulus
    ensures PointsAsWritten(n) < n
  {
  }

  /** A concrete instance: 1431655766 vertices give a bound of 2, hence one point. */
  lemma AsWrittenCounterexample()
    ensures PointsAsWritten(1431655766) == 1
  {
    assert LoopBoundAsWritten(1431655766) == 2;
  }

  /** With the bound computed without wrap-around, the loop runs once per vertex. */
  lemma IntendedIterations(n: nat)
    ensures StrideIterations(3 * n) == n
  {
  }
}

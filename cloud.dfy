/** What one cycle's cloud must contain: the specification the imperative
    builder in module Publisher is proved against, and its properties. */
module Cloud {
  import opened Geometry
  import opened Shapes

  /** Link transforms of one robot state snapshot, keyed by link name. */
  type Poses = map<string, Affine>

  /** What the builder needs of its inputs: a transform for EVERY link (each
      one is looked up, mesh or not) and well-formed meshes. */
  predicate Ready(links: seq<Link>, poses: Poses)
  {
    forall i :: 0 <= i < |links| ==> links[i].name in poses && WellFormed(links[i].shape)
  }

  /** The world-frame points of the first n vertices of a mesh, in vertex order. */
  function MeshPoints(vertices: seq<real>, n: nat, tf: Affine): (pts: seq<Vec3>)
    requires 3 * n <= |vertices|
    ensures |pts| == n
    ensures forall k :: 0 <= k < n ==> pts[k] == Apply(tf, Vertex(vertices, k))
  {
    if n == 0 then [] else MeshPoints(vertices, n - 1, tf) + [Apply(tf, Vertex(vertices, n - 1))]
  }

  /** The block of points one link contributes: its transformed mesh
      vertices, or nothing for any other shape. */
  function LinkPoints(link: Link, poses: Poses): (pts: seq<Vec3>)
    requires link.name in poses && WellFormed(link.shape)
    ensures |pts| == VertexCount(link.shape)
    ensures !link.shape.Mesh? ==> pts == []
  {
    match link.shape
    case Mesh(vertices, n) => MeshPoints(vertices, n, poses[link.name])
    case Primitive(_) => []
  }

  /** The cloud of a cycle: the links' blocks, one after another, in link
      order. It holds one point per mesh vertex, none added, none dropped. */
  function ExpectedPoints(links: seq<Link>, poses: Poses): (pts: seq<Vec3>)
    requires Ready(links, poses)
    ensures |pts| == TotalVertexCount(links)
  {
    if links == [] then []
    else ExpectedPoints(links[..|links| - 1], poses) + LinkPoints(links[|links| - 1], poses)
  }

  /** Sum of the vertex counts of the mesh links: at least each link's own
      count, and zero when no link is a mesh. */
  function TotalVertexCount(links: seq<Link>): (total: nat)
    ensures forall i :: 0 <= i < |links| ==> VertexCount(links[i].shape) <= total
    ensures (forall i :: 0 <= i < |links| ==> !links[i].shape.Mesh?) ==> total == 0
  {
    if links == [] then 0
    else TotalVertexCount(links[..|links| - 1]) + VertexCount(links[|links| - 1].shape)
  }

  /** Where link i's block starts in the cloud. */
  function Offset(links: seq<Link>, i: nat): nat
    requires i <= |links|
  {
    TotalVertexCount(links[..i])
  }

  /** The mesh links of a sequence: all of them and nothing else. */
  function MeshLinks(links: seq<Link>): (r: seq<Link>)
    ensures |r| <= |links|
    ensures forall i :: 0 <= i < |r| ==> r[i].shape.Mesh? && r[i] in links
    ensures forall l :: l in links && l.shape.Mesh? ==> l in r
  {
    if links == [] then []
    else if links[|links| - 1].shape.Mesh? then MeshLinks(links[..|links| - 1]) + [links[|links| - 1]]
    else MeshLinks(links[..|links| - 1])
  }

  /** Dropping the non-mesh links keeps every vertex: the filtered links
      have the same total vertex count. */
  lemma {:induction false} MeshLinksKeepsAll(links: seq<Link>)
    ensures TotalVertexCount(MeshLinks(links)) == TotalVertexCount(links)
  {
    if links != [] {
      var init, last := links[..|links| - 1], links[|links| - 1];
      MeshLinksKeepsAll(init);
      if last.shape.Mesh? {
        var r := MeshLinks(init) + [last];
        assert r[..|r| - 1] == MeshLinks(init);
      }
    }
  }

  lemma ReadySplit(a: seq<Link>, b: seq<Link>, poses: Poses)
    requires Ready(a + b, poses)
    ensures Ready(a, poses) && Ready(b, poses)
  {
    forall i | 0 <= i < |a| ensures a[i].name in poses && WellFormed(a[i].shape) {
      assert a[i] == (a + b)[i];
    }
    forall i | 0 <= i < |b| ensures b[i].name in poses && WellFormed(b[i].shape) {
      assert b[i] == (a + b)[|a| + i];
    }
  }

  /** Building the cloud of a + b is building a's cloud, then appending b's. */
  lemma {:induction false} ExpectedPointsAppend(a: seq<Link>, b: seq<Link>, poses: Poses)
    requires Ready(a + b, poses)
    ensures Ready(a, poses) && Ready(b, poses)
    ensures ExpectedPoints(a + b, poses) == ExpectedPoints(a, poses) + ExpectedPoints(b, poses)
    decreases |b|
  {
    ReadySplit(a, b, poses);
    if b == [] {
      assert a + b == a;
    } else {
      var init := b[..|b| - 1];
      assert (a + b)[..|a + b| - 1] == a + init;
      assert (a + b)[|a + b| - 1] == b[|b| - 1];
      ExpectedPointsAppend(a, init, poses);
    }
  }

  /** Link i's points form one contiguous block of the cloud, starting right
      after the blocks of the links before it. */
  lemma LinkBlock(links: seq<Link>, poses: Poses, i: nat)
    requires Ready(links, poses) && i < |links|
    ensures Offset(links, i + 1) == Offset(links, i) + VertexCount(links[i].shape)
    ensures Offset(links, i + 1) <= |ExpectedPoints(links, poses)|
    ensures ExpectedPoints(links, poses)[Offset(links, i)..Offset(links, i + 1)] == LinkPoints(links[i], poses)
  {
    assert links == links[..i + 1] + links[i + 1..];
    ExpectedPointsAppend(links[..i + 1], links[i + 1..], poses);
    assert links[..i + 1][..i] == links[..i];
  }

  lemma SliceAt<T>(s: seq<T>, lo: nat, hi: nat, k: nat)
    requires lo + k < hi <= |s|
    ensures s[lo..hi][k] == s[lo + k]
  {
  }

  /** The k-th point of link i's block sits at position Offset(links, i) + k. */
  lemma BlockAt(links: seq<Link>, poses: Poses, i: nat, k: nat)
    requires Ready(links, poses) && i < |links| && k < VertexCount(links[i].shape)
    ensures Offset(links, i) + k < |ExpectedPoints(links, poses)|
    ensures k < |LinkPoints(links[i], poses)|
    ensures ExpectedPoints(links, poses)[Offset(links, i) + k] == LinkPoints(links[i], poses)[k]
  {
    LinkBlock(links, poses, i);
    var whole, lo, hi := ExpectedPoints(links, poses), Offset(links, i), Offset(links, i + 1);
    SliceAt(whole, lo, hi, k);
  }

  /** The k-th point of mesh link i's block is its k-th vertex under that
      link's own transform. */
  lemma PointAt(links: seq<Link>, poses: Poses, i: nat, k: nat)
    requires Ready(links, poses) && i < |links|
    requires links[i].shape.Mesh? && k < links[i].shape.vertexCount
    ensures Offset(links, i) + k < |ExpectedPoints(links, poses)|
    ensures ExpectedPoints(links, poses)[Offset(links, i) + k]
         == Apply(poses[links[i].name], Vertex(links[i].shape.vertices, k))
  {
    BlockAt(links, poses, i, k);
  }

  /** Non-mesh links are skipped: dropping them changes nothing. */
  lemma {:induction false} PrimitivesContributeNothing(links: seq<Link>, poses: Poses)
    requires Ready(links, poses)
    ensures Ready(MeshLinks(links), poses)
    ensures ExpectedPoints(MeshLinks(links), poses) == ExpectedPoints(links, poses)
  {
    if links != [] {
      var init, last := links[..|links| - 1], links[|links| - 1];
      PrimitivesContributeNothing(init, poses);
      assert forall i :: 0 <= i < |MeshLinks(init)| ==> MeshLinks(init)[i] in links;
      if last.shape.Mesh? {
        var r := MeshLinks(init) + [last];
        assert r[..|r| - 1] == MeshLinks(init);
      }
    }
  }

  /** The vertices of a mesh read as points, in vertex order. */
  function Vertices(vertices: seq<real>, n: nat): (vs: seq<Vec3>)
    requires 3 * n <= |vertices|
    ensures |vs| == n
  {
    seq(n, k requires 0 <= k < n => Vertex(vertices, k))
  }

  /** The coordinates of a list of points, three per point, in order. */
  function Flatten(ps: seq<Vec3>): (flat: seq<real>)
    ensures |flat| == 3 * |ps|
  {
    if ps == [] then [] else Flatten(ps[..|ps| - 1]) + [ps[|ps| - 1].x, ps[|ps| - 1].y, ps[|ps| - 1].z]
  }

  /** Reading a flat array three coordinates at a time skips, repeats and
      reorders nothing: the points read give back exactly the first 3n
      coordinates. */
  lemma {:induction false} FlattenVertices(vertices: seq<real>, n: nat)
    requires 3 * n <= |vertices|
    ensures Flatten(Vertices(vertices, n)) == vertices[..3 * n]
  {
    if n > 0 {
      var vs := Vertices(vertices, n);
      assert vs[..n - 1] == Vertices(vertices, n - 1);
      FlattenVertices(vertices, n - 1);
      var v := Vertex(vertices, n - 1);
      assert vs[n - 1] == v;
      assert vertices[..3 * n] == vertices[..3 * (n - 1)] + vertices[3 * (n - 1)..3 * n];
    }
  }

  /** Under the identity transform a mesh's block is its vertex list, exactly. */
  lemma IdentityMeshPoints(vertices: seq<real>, n: nat)
    requires 3 * n <= |vertices|
    ensures MeshPoints(vertices, n, Identity) == Vertices(vertices, n)
  {
    forall k | 0 <= k < n
      ensures MeshPoints(vertices, n, Identity)[k] == Vertices(vertices, n)[k]
    {
      ApplyIdentity(Vertex(vertices, k));
    }
  }

  /** A triangle link under the identity transform followed by a box link:
      the cloud is the triangle's three corners, exactly and in order. */
  lemma TriangleAndBox(a: string, b: string, p: Vec3, q: Vec3, r: Vec3)
    ensures
      var links := [Link(a, Mesh([p.x, p.y, p.z, q.x, q.y, q.z, r.x, r.y, r.z], 3)),
                    Link(b, Primitive(Box))];
      var poses := map[a := Identity, b := Identity];
      Ready(links, poses) && ExpectedPoints(links, poses) == [p, q, r]
  {
    var vertices := [p.x, p.y, p.z, q.x, q.y, q.z, r.x, r.y, r.z];
    var triangle, box := Link(a, Mesh(vertices, 3)), Link(b, Primitive(Box));
    var poses := map[a := Identity, b := Identity];
    assert [triangle, box][..1] == [triangle];
    assert [triangle][..0] == [];
    assert Ready([triangle, box], poses);
    assert poses[triangle.name] == Identity;
    assert LinkPoints(box, poses) == [];
    assert ExpectedPoints([triangle, box], poses) == ExpectedPoints([triangle], poses);
    assert ExpectedPoints([triangle], poses) == MeshPoints(vertices, 3, Identity);
    IdentityMeshPoints(vertices, 3);
    assert Vertices(vertices, 3) == [p, q, r] by {
      assert Vertex(vertices, 0) == p;
      assert Vertex(vertices, 1) == q;
      assert Vertex(vertices, 2) == r;
    }
  }
}

/** The node's publish loop: one reusable cloud message whose points are
    cleared and rebuilt, then stamped and published, on each pass whose
    bounded wait for the robot state returns true. */
module Publisher {
  import opened Geometry
  import opened Shapes
  import opened Cloud

  /** A published message: frame id, stamp and points (the stamp is the
      clock reading taken for that pass, as an opaque number). */
  datatype Frame = Frame(frameId: string, stamp: nat, points: seq<Vec3>)

  /** What one pass of the loop sees: whether the bounded wait for the robot
      state succeeded and, if it did, the links with collision geometry, the
      transform looked up for each of them during that pass, and the clock
      reading taken after building. */
  datatype CycleInput = CycleInput(stateReady: bool, links: seq<Link>, poses: Poses, now: nat)

  /** A pass whose wait succeeded must be able to look up every link. */
  predicate CycleOk(c: CycleInput)
  {
    c.stateReady ==> Ready(c.links, c.poses)
  }

  predicate AllCyclesOk(cycles: seq<CycleInput>)
  {
    forall i :: 0 <= i < |cycles| ==> CycleOk(cycles[i])
  }

  /** The message a successful pass publishes: the node's frame id, the
      pass's clock reading, and one point per mesh vertex of the pass. */
  function FrameOf(frameId: string, c: CycleInput): (f: Frame)
    requires c.stateReady && Ready(c.links, c.poses)
    ensures f.frameId == frameId && f.stamp == c.now
    ensures |f.points| == TotalVertexCount(c.links)
  {
    Frame(frameId, c.now, ExpectedPoints(c.links, c.poses))
  }

  /** Positions, in increasing order, of the passes whose wait succeeded. */
  function ReadyIndices(cycles: seq<CycleInput>): (r: seq<nat>)
    ensures |r| <= |cycles|
    ensures forall j :: 0 <= j < |r| ==> r[j] < |cycles| && cycles[r[j]].stateReady
    ensures forall i :: 0 <= i < |cycles| && cycles[i].stateReady ==> i in r
    ensures forall j, j' :: 0 <= j < j' < |r| ==> r[j] < r[j']
  {
    if cycles == [] then []
    else
      var n := |cycles| - 1;
      if cycles[n].stateReady then ReadyIndices(cycles[..n]) + [n] else ReadyIndices(cycles[..n])
  }

  /** The messages a run of passes publishes, in order. */
  function Published(frameId: string, cycles: seq<CycleInput>): (r: seq<Frame>)
    requires AllCyclesOk(cycles)
    ensures |r| <= |cycles|
    ensures forall j :: 0 <= j < |r| ==> r[j].frameId == frameId
  {
    if cycles == [] then []
    else
      var n := |cycles| - 1;
      assert CycleOk(cycles[n]);
      Published(frameId, cycles[..n]) + if cycles[n].stateReady then [FrameOf(frameId, cycles[n])] else []
  }

  lemma PrefixOk(cycles: seq<CycleInput>, n: nat)
    requires AllCyclesOk(cycles) && n <= |cycles|
    ensures AllCyclesOk(cycles[..n])
  {
    forall i | 0 <= i < n ensures CycleOk(cycles[..n][i]) {
      assert cycles[..n][i] == cycles[i];
    }
  }

  /** A message is published for exactly the passes whose wait succeeded:
      the j-th message is the cloud of the j-th such pass. */
  lemma {:induction false} PublishedOnReady(frameId: string, cycles: seq<CycleInput>)
    requires AllCyclesOk(cycles)
    ensures |Published(frameId, cycles)| == |ReadyIndices(cycles)|
    ensures forall j :: 0 <= j < |Published(frameId, cycles)| ==>
              Published(frameId, cycles)[j] == FrameOf(frameId, cycles[ReadyIndices(cycles)[j]])
  {
    if cycles != [] {
      var n := |cycles| - 1;
      var init := cycles[..n];
      PrefixOk(cycles, n);
      PublishedOnReady(frameId, init);
      var pub, ready := Published(frameId, init), ReadyIndices(init);
      assert CycleOk(cycles[n]);
      if cycles[n].stateReady {
        assert Published(frameId, cycles) == pub + [FrameOf(frameId, cycles[n])];
        assert ReadyIndices(cycles) == ready + [n];
      } else {
        assert Published(frameId, cycles) == pub;
        assert ReadyIndices(cycles) == ready;
      }
      forall j | 0 <= j < |pub|
        ensures Published(frameId, cycles)[j] == FrameOf(frameId, cycles[ReadyIndices(cycles)[j]])
      {
        assert ReadyIndices(cycles)[j] == ready[j];
        assert init[ready[j]] == cycles[ready[j]];
      }
    }
  }

  /** While the bounded wait never returns true, nothing is ever published. */
  lemma {:induction false} IdleRunPublishesNothing(frameId: string, cycles: seq<CycleInput>)
    requires forall i :: 0 <= i < |cycles| ==> !cycles[i].stateReady
    ensures AllCyclesOk(cycles)
    ensures Published(frameId, cycles) == []
  {
    if cycles != [] {
      var n := |cycles| - 1;
      assert forall i :: 0 <= i < n ==> cycles[..n][i] == cycles[i];
      IdleRunPublishesNothing(frameId, cycles[..n]);
    }
  }

  /** The message held after a run of passes that started from `initial`:
      the last published one, or `initial` if nothing was published. */
  function Current(frameId: string, cycles: seq<CycleInput>, initial: Frame): Frame
    requires AllCyclesOk(cycles)
  {
    if cycles == [] then initial
    else
      var n := |cycles| - 1;
      assert CycleOk(cycles[n]);
      if cycles[n].stateReady then FrameOf(frameId, cycles[n]) else Current(frameId, cycles[..n], initial)
  }

  /** After a run the message is that of the last pass whose wait succeeded,
      stamped with that pass's clock reading; if none succeeded, the message
      is the one the run started with. */
  lemma {:induction false} CurrentIsLastReady(frameId: string, cycles: seq<CycleInput>, initial: Frame)
    requires AllCyclesOk(cycles)
    ensures ReadyIndices(cycles) == [] ==> Current(frameId, cycles, initial) == initial
    ensures ReadyIndices(cycles) != [] ==>
              var c := cycles[ReadyIndices(cycles)[|ReadyIndices(cycles)| - 1]];
              Ready(c.links, c.poses) && Current(frameId, cycles, initial) == FrameOf(frameId, c)
  {
    if cycles != [] {
      var n := |cycles| - 1;
      PrefixOk(cycles, n);
      CurrentIsLastReady(frameId, cycles[..n], initial);
      assert CycleOk(cycles[n]);
      var ready := ReadyIndices(cycles[..n]);
      if cycles[n].stateReady {
        assert ReadyIndices(cycles) == ready + [n];
      } else {
        assert ReadyIndices(cycles) == ready;
        if ready != [] {
          assert cycles[..n][ready[|ready| - 1]] == cycles[ready[|ready| - 1]];
        }
      }
    }
  }

  /** One more pass extends the history by its message, if any, and replaces
      the current message with it. */
  lemma RunStep(frameId: string, cycles: seq<CycleInput>, i: nat, initial: Frame)
    requires AllCyclesOk(cycles) && i < |cycles|
    ensures CycleOk(cycles[i]) && AllCyclesOk(cycles[..i]) && AllCyclesOk(cycles[..i + 1])
    ensures cycles[i].stateReady ==>
              Ready(cycles[i].links, cycles[i].poses) &&
              Published(frameId, cycles[..i + 1]) == Published(frameId, cycles[..i]) + [FrameOf(frameId, cycles[i])] &&
              Current(frameId, cycles[..i + 1], initial) == FrameOf(frameId, cycles[i])
    ensures !cycles[i].stateReady ==>
              Published(frameId, cycles[..i + 1]) == Published(frameId, cycles[..i]) &&
              Current(frameId, cycles[..i + 1], initial) == Current(frameId, cycles[..i], initial)
  {
    PrefixOk(cycles, i);
    PrefixOk(cycles, i + 1);
    assert cycles[..i + 1][..i] == cycles[..i];
    assert cycles[..i + 1][i] == cycles[i];
  }

  /** The cloud of the first i + 1 links extends that of the first i by
      link i's block. */
  lemma ExtendByLink(links: seq<Link>, poses: Poses, i: nat)
    requires Ready(links, poses) && i < |links|
    ensures Ready(links[..i], poses) && Ready(links[..i + 1], poses)
    ensures links[i].name in poses && WellFormed(links[i].shape)
    ensures ExpectedPoints(links[..i + 1], poses) == ExpectedPoints(links[..i], poses) + LinkPoints(links[i], poses)
  {
    assert links[..i + 1][..i] == links[..i];
  }

  /** The node's state: the reused `cloud` message and the stream of
      messages handed to the publisher so far. */
  class CloudNode {
    /** `cloud.header.frame_id`: the root link's name. */
    var frameId: string
    /** `cloud.header.stamp`. */
    var stamp: nat
    /** `cloud.points`, the buffer that every successful pass refills. */
    var points: seq<Vec3>
    /** Every message published so far, oldest first. */
    ghost var published: seq<Frame>

    /** Before the loop: an empty message whose frame id is the root link. */
    constructor (rootLinkName: string)
      ensures frameId == rootLinkName && stamp == 0 && points == [] && published == []
    {
      frameId := rootLinkName;
      stamp := 0;
      points := [];
      published := [];
    }

    /** Clears the buffer, then appends, link by link and vertex by vertex,
        each mesh vertex under its link's transform. Whatever the buffer held
        before is gone. */
    method BuildCloud(links: seq<Link>, poses: Poses)
      requires Ready(links, poses)
      modifies this`points
      ensures points == ExpectedPoints(links, poses)
    {
      points := [];
      var i := 0;
      assert links[..i] == [];
      while i < |links|
        invariant 0 <= i <= |links|
        invariant points == ExpectedPoints(links[..i], poses)
      {
        var link := links[i];
        var tf := poses[link.name];
        ExtendByLink(links, poses, i);
        ghost var before := points;
        if link.shape.Mesh? {
          AppendMesh(link.shape.vertices, link.shape.vertexCount, tf);
        }
        assert points == before + LinkPoints(link, poses);
        i := i + 1;
      }
      assert links[..i] == links;
    }

    /** The inner loop: reads the flat vertex array three coordinates at a
        time and appends each vertex, transformed, to the buffer. */
    method AppendMesh(vertices: seq<real>, n: nat, tf: Affine)
      requires 3 * n <= |vertices|
      modifies this`points
      ensures points == old(points) + MeshPoints(vertices, n, tf)
    {
      var j := 0;
      ghost var k := 0;
      ghost var read: set<nat> := {};
      while j < 3 * n
        invariant j == 3 * k && k <= n
        invariant read == StrideReads(k)
        invariant points == old(points) + MeshPoints(vertices, k, tf)
      {
        var vertex := Vec3(vertices[j], vertices[j + 1], vertices[j + 2]);
        read := read + {j, j + 1, j + 2};
        assert vertex == Vertex(vertices, k);
        var transformed := Apply(tf, vertex);
        points := points + [transformed];
        j, k := j + 3, k + 1;
      }
    }

    /** Hands the current message to the transport. */
    method Publish()
      modifies this`published
      ensures published == old(published) + [Frame(frameId, stamp, points)]
    {
      published := published + [Frame(frameId, stamp, points)];
    }

    /** One pass of the loop. If the wait succeeded: rebuild the buffer, then
        stamp, then publish. Otherwise nothing changes. */
    method Cycle(c: CycleInput)
      requires CycleOk(c)
      modifies this
      ensures frameId == old(frameId)
      ensures c.stateReady ==>
                points == ExpectedPoints(c.links, c.poses) && stamp == c.now &&
                published == old(published) + [FrameOf(frameId, c)]
      ensures !c.stateReady ==>
                points == old(points) && stamp == old(stamp) && published == old(published)
    {
      if c.stateReady {
        BuildCloud(c.links, c.poses);
        stamp := c.now;
        Publish();
      }
    }

    /** The loop, over the passes made before shutdown. Afterwards the
        message holds the cloud and stamp of the last successful pass, or is
        unchanged if no pass succeeded. */
    method Run(cycles: seq<CycleInput>)
      requires AllCyclesOk(cycles)
      modifies this
      ensures frameId == old(frameId)
      ensures published == old(published) + Published(frameId, cycles)
      ensures ReadyIndices(cycles) == [] ==> points == old(points) && stamp == old(stamp)
      ensures ReadyIndices(cycles) != [] ==>
                var c := cycles[ReadyIndices(cycles)[|ReadyIndices(cycles)| - 1]];
                Ready(c.links, c.poses) && points == ExpectedPoints(c.links, c.poses) && stamp == c.now
    {
      var i := 0;
      while i < |cycles|
        invariant 0 <= i <= |cycles|
        invariant frameId == old(frameId)
        invariant AllCyclesOk(cycles[..i])
        invariant published == old(published) + Published(frameId, cycles[..i])
        invariant Frame(frameId, stamp, points) == Current(frameId, cycles[..i], old(Frame(frameId, stamp, points)))
      {
        RunStep(frameId, cycles, i, old(Frame(frameId, stamp, points)));
        Cycle(cycles[i]);
        i := i + 1;
      }
      assert cycles[..i] == cycles;
      CurrentIsLastReady(frameId, cycles, old(Frame(frameId, stamp, points)));
    }
  }

  /** The whole node: set the frame id from the root link, then loop. At the
      end the message is the last successful pass's, or still empty. */
  method Start(rootLinkName: string, cycles: seq<CycleInput>) returns (node: CloudNode)
    requires AllCyclesOk(cycles)
    ensures node.frameId == rootLinkName
    ensures node.published == Published(rootLinkName, cycles)
    ensures ReadyIndices(cycles) == [] ==> node.points == [] && node.stamp == 0
    ensures ReadyIndices(cycles) != [] ==>
              var c := cycles[ReadyIndices(cycles)[|ReadyIndices(cycles)| - 1]];
              Ready(c.links, c.poses) && node.points == ExpectedPoints(c.links, c.poses) && node.stamp == c.now
  {
    node := new CloudNode(rootLinkName);
    node.Run(cycles);
  }
}

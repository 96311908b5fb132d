# robot_model_to_pointcloud, modelled in Dafny

The node turns the robot's own collision geometry into a point cloud in the
root frame. On each pass of its main loop it calls
`waitForCurrentState(1.0)`, a wait of at most one second for a complete
current robot state. On each pass whose wait at line 61 returns true, it:

- clears the reused `cloud.points` buffer;
- walks the links that have collision geometry, in model order, and looks up
  each link's global collision-body transform;
- transforms every vertex of each MESH shape with `p' = R·v + t` and appends
  the result, in vertex order (see Findings for very large meshes);
- stamps the message and publishes it.

If the wait times out, it logs a line and tries again. The message's
`frame_id` is set once, before the loop, to the root link's name.

The model has four modules:

- `Geometry` (`geometry.dfy`): points, 3x3 matrices and affine transforms
  over exact reals. `Apply` is Eigen's `Affine3d * Vector3d`.
- `Shapes` (`shapes.dfy`): link shapes. A shape is either a `Mesh` (a flat
  vertex array and a vertex count) or one of the primitive tags. This module
  describes how the inner loop reads the array in strides of three. It also
  holds the as-written 32-bit loop bound (see Findings).
- `Cloud` (`cloud.dfy`): the specification of one cycle's cloud. There is one
  recursive function for each loop level: `MeshPoints` for the vertex loop
  and `ExpectedPoints` for the link loop. The lemmas cover the point count,
  the block layout, the skipping of non-mesh links and the identity
  transform.
- `Publisher` (`publisher.dfy`): the class `CloudNode`. Its fields are the
  message's `frameId`, `stamp` and `points`, plus a ghost history of the
  published messages. `BuildCloud` runs the nested loops: `AppendMesh` is the
  inner loop, and `BuildCloud` proves that the buffer ends equal to
  `ExpectedPoints`. `Cycle` is one pass of the `while` loop, and `Run` is the
  whole loop over a finite sequence of passes. The pure function `Published`
  gives the messages sent over a run. The lemmas say which passes publish.

Three facts about the source shape the model:

- Line 69 dereferences the link-state lookup directly, for every link. There
  is no check and no error path. So `Cloud.Ready` requires a transform for
  every link name, including the links whose shape is then skipped.
- The lookup at line 69 runs before the shape test at line 75.
- Shutdown is the `ros::ok()` loop guard at line 60. `Run` models the passes
  made before the guard fails.

## Model

| member | source | states |
|---|---|---|
| `Geometry.Apply` | src/robot_model_to_pointcloud.cpp:82 | `Transform * vertice`: the origin is mapped to the translation, and a transform with no rotation only translates |
| `Geometry.ApplyIdentity` | src/robot_model_to_pointcloud.cpp:82 | the identity transform maps every point to itself |
| `Geometry.QuarterTurnLiftApplied` | src/robot_model_to_pointcloud.cpp:82 | a quarter turn about z plus a lift of 1 along z maps (x, y, z) to (-y, x, z + 1) |
| `Geometry.QuarterTurnLiftOfUnitX` | src/robot_model_to_pointcloud.cpp:82 | that transform maps (1, 0, 0) to (0, 1, 1) |
| `Shapes.Vertex` | src/robot_model_to_pointcloud.cpp:80 | the definition of the read at line 80: vertex k is the coordinates at 3k, 3k+1 and 3k+2 of the flat array, in that order. What the stride read as a whole preserves is stated by `Cloud.FlattenVertices` |
| `Shapes.StrideReads` | src/robot_model_to_pointcloud.cpp:78-80 | the loop reads `i`, `i+1` and `i+2` for i = 0, 3, ... below 3n; together these are exactly the indices below 3n |
| `Shapes.StrideReadsInBounds` | src/robot_model_to_pointcloud.cpp:78-80 | for a well-formed mesh (at least 3 coordinates per vertex), every index the loop reads is inside the vertex array |
| `Shapes.StrideIterations` | src/robot_model_to_pointcloud.cpp:78 | a loop stepping by 3 from 0 below `bound` runs k times, with bound <= 3k < bound + 3 |
| `Shapes.LoopBoundAsWritten` | src/robot_model_to_pointcloud.cpp:78 | the 32-bit bound `3*vertex_count` equals 3n while 3n < 2^32; from there on it wraps to a value at least 2^32 below 3n |
| `Shapes.PointsAsWritten` | src/robot_model_to_pointcloud.cpp:78-89 | the as-written loop never appends more points than the mesh has vertices |
| `Shapes.AsWrittenExactBelowWrap` | src/robot_model_to_pointcloud.cpp:78-89 | below the wrap, the as-written loop appends exactly n points |
| `Shapes.AsWrittenDropsVertices` | src/robot_model_to_pointcloud.cpp:78-89 | at or above the wrap, the as-written loop appends fewer than n points |
| `Shapes.AsWrittenCounterexample` | src/robot_model_to_pointcloud.cpp:78-89 | 1431655766 vertices give one point |
| `Shapes.IntendedIterations` | src/robot_model_to_pointcloud.cpp:78 | with an unbounded bound the loop runs exactly n times |
| `Cloud.MeshPoints` | src/robot_model_to_pointcloud.cpp:78-89 | a mesh's block has exactly n points; point k is vertex k, made of coordinates 3k, 3k+1 and 3k+2, under the link's transform |
| `Cloud.MeshLinks` | src/robot_model_to_pointcloud.cpp:75 | the MESH filter keeps every mesh link of the input and nothing else: each kept link is a mesh from the input, and it is never longer than the input |
| `Cloud.MeshLinksKeepsAll` | src/robot_model_to_pointcloud.cpp:75 | the filtered links have the same total vertex count as the input: no vertex is lost by skipping non-mesh links |
| `Cloud.LinkPoints` | src/robot_model_to_pointcloud.cpp:69-90 | a link adds exactly its vertex count; a non-mesh link adds nothing |
| `Cloud.TotalVertexCount` | src/robot_model_to_pointcloud.cpp:75-78 | the total vertex count is at least each link's own count, and zero when no link is a mesh |
| `Cloud.ExpectedPoints` | src/robot_model_to_pointcloud.cpp:62-92 | a cycle's cloud holds exactly the sum, over mesh links, of their vertex counts: one point per vertex, none added, none dropped |
| `Cloud.ExpectedPointsAppend` | src/robot_model_to_pointcloud.cpp:65-92 | the cloud of links a + b is a's cloud followed by b's cloud |
| `Cloud.LinkBlock` | src/robot_model_to_pointcloud.cpp:65-90 | link i's points are one contiguous block; it starts where the block of the links before it ends and is exactly its vertex count long |
| `Cloud.BlockAt` | src/robot_model_to_pointcloud.cpp:65-88 | point k of link i's block is at position Offset(i) + k of the cloud |
| `Cloud.PointAt` | src/robot_model_to_pointcloud.cpp:69-88 | the point at Offset(i) + k is vertex k of link i under link i's own transform |
| `Cloud.PrimitivesContributeNothing` | src/robot_model_to_pointcloud.cpp:75-90 | removing every non-mesh link leaves the cloud unchanged; skipping them is not an error |
| `Cloud.FlattenVertices` | src/robot_model_to_pointcloud.cpp:78-80 | reading the flat array three coordinates at a time skips, repeats and reorders no coordinate: flattening the n vertices read gives back exactly the first 3n coordinates |
| `Cloud.IdentityMeshPoints` | src/robot_model_to_pointcloud.cpp:80-86 | under the identity transform, a mesh's block is its vertex list, exactly |
| `Cloud.TriangleAndBox` | src/robot_model_to_pointcloud.cpp:62-92 | a triangle link under the identity, followed by a box link, gives a cloud of exactly the triangle's three corners, in order |
| `Publisher.FrameOf` | src/robot_model_to_pointcloud.cpp:93-96 | a successful pass's message carries the frame id set at startup, that pass's clock reading, and one point per mesh vertex |
| `Publisher.ReadyIndices` | src/robot_model_to_pointcloud.cpp:61 | lists, in increasing order, exactly the passes whose wait succeeded |
| `Publisher.Published` | src/robot_model_to_pointcloud.cpp:60-101 | a run publishes at most one message per pass, and every message carries the frame id set at startup |
| `Publisher.PublishedOnReady` | src/robot_model_to_pointcloud.cpp:60-100 | one message is published for each pass whose wait succeeded and none for the others; message j is the j-th such pass's cloud, stamped with that pass's clock reading |
| `Publisher.IdleRunPublishesNothing` | src/robot_model_to_pointcloud.cpp:60-100 | if the wait never succeeds, nothing is ever published |
| `Publisher.CurrentIsLastReady` | src/robot_model_to_pointcloud.cpp:60-100 | after a run, the message held is the last successful pass's cloud and stamp; if no pass succeeded, it is the message the run started with |
| `Publisher.RunStep` | src/robot_model_to_pointcloud.cpp:60-100 | one more pass appends its message to the history and makes it the current message if its wait succeeded, and changes neither otherwise |
| `Publisher.ExtendByLink` | src/robot_model_to_pointcloud.cpp:65-92 | one step of the link loop appends exactly link i's block to the cloud so far |
| `Publisher.CloudNode.constructor` | src/robot_model_to_pointcloud.cpp:55-58 | before the loop, the frame id is the root link's name, the buffer is empty and nothing has been published |
| `Publisher.CloudNode.BuildCloud` | src/robot_model_to_pointcloud.cpp:62-92 | after clearing and refilling, the buffer equals the cycle's expected cloud; nothing from earlier cycles remains. Frame id, stamp and history are untouched |
| `Publisher.CloudNode.AppendMesh` | src/robot_model_to_pointcloud.cpp:78-89 | the inner loop appends the mesh's block after what the buffer already holds; its invariant keeps the indices read so far equal to `Shapes.StrideReads` of the vertices done |
| `Publisher.CloudNode.Publish` | src/robot_model_to_pointcloud.cpp:95-96 | the current message is added to the end of the published history |
| `Publisher.CloudNode.Cycle` | src/robot_model_to_pointcloud.cpp:61-100 | if the wait succeeded: buffer rebuilt, then stamp set, then exactly one message published. If not: nothing changes. The frame id never changes |
| `Publisher.CloudNode.Run` | src/robot_model_to_pointcloud.cpp:60-101 | over a run of passes, the history grows by exactly `Published` of that run and the frame id never changes. Afterwards the buffer and stamp are those of the last successful pass, or unchanged if there was none |
| `Publisher.Start` | src/robot_model_to_pointcloud.cpp:55-101 | from startup, the node's frame id is the root link and its history is exactly `Published(root, passes)`. At the end the buffer and stamp are the last successful pass's cloud and clock reading, or empty and 0 if no pass succeeded |

## Left out

- ROS start-up and tear-down are not modelled: `ros::init`, the node handle,
  advertising the topic, reading `/robot_description` and `/joint_states`, and
  `ros::shutdown`. These are configuration and I/O.
- `ros::AsyncSpinner` and the state monitor's subscription are not modelled.
  They are concurrency inside the library. The result of
  `waitForCurrentState(1.0)` is an input of each pass (`stateReady`).
- `ros::ok()` is not modelled as a signal. A run is a finite sequence of
  passes, with shutdown after the last one.
- Forward kinematics, `getLinkModelsWithCollisionGeometry` and
  `getGlobalCollisionBodyTransform` are foreign library calls. The link list
  and the transforms of a pass are inputs (`links`, `poses`).
- `convertPointCloudToPointCloud2` and `cloud_pub.publish` are library
  serialisation and transport. Publishing appends the current message to the
  ghost `published` history.
- Floating point is not modelled. Coordinates are exact reals, so Eigen's
  double rounding and the narrowing into `Point32` floats are absent. The
  scratch `pt` is overwritten field by field before each `push_back`. It is
  modelled as a fresh value, which behaves the same.
- `ros::Time::now()` becomes the opaque input `now`. Logging is left out.
- `Publisher.CloudNode.AppendMesh`: its loop bound `3 * n` is unbounded. It
  models the intended behaviour, not the 32-bit wrap-around. The as-written
  bound is modelled separately (see Findings).
- Line 69 calls `getCurrentState()` again for every link, while the spinner
  can update the monitored state between calls. So the transforms of one pass
  may come from different robot states. The model takes the transforms of a
  pass as one map (`poses`), whatever states they came from. The lifetime of
  the transform reference bound at line 69 is not modelled.

## Findings

| source | as written | input that shows it | evidently intended | confidence | as-written member | corrected member |
|---|---|---|---|---|---|---|
| src/robot_model_to_pointcloud.cpp:78 | the loop bound `3*mesh->vertex_count` is computed in 32-bit unsigned arithmetic, so for 3n >= 2^32 it wraps and the loop stops early | a mesh with vertex_count = 1431655766: the bound wraps to 2 and one point is appended instead of 1431655766 | one point per vertex, for every vertex count | low. It assumes `vertex_count` is a 32-bit `unsigned int`; the geometry library's header is not part of this model. The mesh involved is very large. Not executed | `Shapes.AsWrittenCounterexample` | `Cloud.MeshPoints` |

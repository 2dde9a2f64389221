# Verified model of the depthai-core host library

Dafny models of the parts of depthai-core that carry the most logic, and proofs
of what these parts are for. `dafny verify dfyconfig.toml` checks all of it.

| files | subject |
|---|---|
| `Node.dfy`, `Bridging.dfy`, `Pipeline.dfy` | the dataflow graph of a pipeline, the pass that reroutes host/device connections over XLink, and the schemas emitted from the result |
| `Matrix.dfy`, `ExtrinsicGraph.dfy`, `CalibrationHandler.dfy`, `ExtrinsicPoints.dfy`, `CameraIntrinsics.dfy` | rigid transforms composed along camera links and what they do to points, validation of the links, rescaling of intrinsics |
| `Bytes.dfy`, `Bits.dfy`, `Bspatch.dfy`, `OpenVINO.dfy`, `BlobReader.dfy` | bsdiff patches, superblobs, tensor tables of network blobs |
| `RecordReplay.dfy` | cutting an H.264 byte stream into NAL units and writing them as samples |
| `WaitAny.dfy`, `MessageQueue.dfy` | waiting on several queues, and the queues and notifiers themselves |
| `AssetManager.dfy`, `DeviceBootloader.dfy` | laying out asset storage and application packages |
| `DepthaiNodeNames.dfy` | the search for node classes in a class hierarchy |
| `Text.dfy`, `Ordering.dfy`, `Optional.dfy` | rendered ids; walking a container in an order the program leaves open; optional values |

Classes of the source that change their fields are classes here, its loops are
loops, and each such method is proved against a function or a relation on
values. The main results are lemmas about those for all inputs, all runs or all
reachable states. Containers without an order (`std::unordered_set`, Python
sets) are walked in an arbitrary order, so every result holds for every order.

Conditions that turned out to be needed are stated exactly, with both directions
proved:

- `build` succeeds exactly if every crossing port carries a type that fits an
  XLink stream and no two crossing device ports get the same stream name. Names
  do clash: group `a`, name `b_c` and group `a_b`, name `c` of one node run
  together to the same text (`Bridging.StreamNameClash`,
  `Bridging.TwoPortsWithOneStream`), and a graph in which both such ports cross is
  refused (`Bridging.TwoPortsAreNotBuildable`).
- `bspatch_mem` reserves four bytes per byte of the new file for each block, so
  for files below 1 GiB a patch with more than one edit per six bytes of the new
  file is refused (`Bspatch.FailsExactlyWithManyEdits`; a file of one byte shows
  it in `Bspatch.OneByteFileIsRefused`). A superblob then gives as many zeros
  instead of the target (`OpenVINO.TargetIsRebuilt`).
- The sizes in a superblob are added up in an `int`; a superblob opens exactly
  if its patches total less than 2 GiB (`OpenVINO.OpensExactlyBelow2GiB`).
- Splitting undoes Annex B framing exactly if no unit holds a start code prefix
  or is empty, and none ends in a zero byte in front of a three-byte start code
  (`RecordReplay.SplitsFromExactly`, `RecordReplay.SeparableBeforeAnother`).
- `waitAny` answers false, its documentation says
  (include/depthai/pipeline/MessageQueue.hpp:99), if all queues are closed or the
  timeout expires first. That holds exactly for calls on no queue, or on a single
  queue of which nobody else takes or drops messages: the caller is its only
  consumer, and no send finds its size set to 0 and empties it
  (include/depthai/utility/LockingQueue.hpp:155-164)
  (`WaitAny.FalseMeansAllClosedExactly`). Already with two queues the one with
  the message can be closed before the result is looked up
  (`WaitAny.FalseAlthoughOpen`); with a send that empties, a single queue is
  enough and none need be closed (`WaitAny.FalseAlthoughNothingClosed`).
- For assets that take up less than 4 GiB, serializing them throws exactly if a
  padding does not fit an `int` (`AssetManager.SerializeAll`). A byte followed by
  an empty asset with the largest alignment is such a case
  (`AssetManager.LargeAlignmentDoesNotFit`).
- Removing a node keeps the three connection structures mirrored exactly if it
  had no connection with another node (`Pipeline.PipelineImpl.Remove`).

## Model

| member | source | states |
|---|---|---|
| NodeGraph.BridgeTypesMatchExactly | src/pipeline/Node.cpp:118-134 | a port matches a bridge end, in either direction, exactly if one of its types is more than a bare ADatatype |
| NodeGraph.MatchesExactly | src/pipeline/Node.cpp:118-134 | any two ports match exactly if they share a type, or one that stands for its descendants too has a type of the other below it |
| NodeGraph.SubclassOfIsDescent | src/pipeline/datatype/DatatypeEnum.cpp:180-191 | the closed form of the hierarchy finds what the recursive search down the table finds |
| NodeGraph.Output.Link | src/pipeline/Node.cpp:150-171 | refuses unmatched types and connections already recorded under the same nodes and names, and changes nothing then; otherwise extends the connection set and both port lists |
| NodeGraph.Output.Unlink | src/pipeline/Node.cpp:216-230 | fails exactly if nothing is recorded; otherwise removes the connection and every mention in both lists |
| NodeGraph.Output.Send | src/pipeline/Node.cpp:232-258 | every input in the list gets the message once per occurrence |
| NodeGraph.Node.RemoveConnectionToNode | src/pipeline/Node.cpp:639-651 | exactly the connections from or to the node are forgotten |
| NodeGraph.WithoutCount | src/pipeline/Node.cpp:228-229 | erase-remove takes out all occurrences of one element and no other element |
| NodeGraph.WithoutInOrder | src/pipeline/Node.cpp:227-229 | and what is left keeps its order |
| Bridging.BridgingPreservesDelivery | src/pipeline/Pipeline.cpp:1055-1126 | for any graph, any set of good bridges and any route over however many bridges: after the rewriting the route leads from an original output to an original input exactly if they were connected before and it is the one that replaces their connection, direct or over the one bridge of the device port |
| Bridging.NoBridgeFeedsAnother | src/pipeline/Pipeline.cpp:1085-1124 | no bridge leads into another |
| Bridging.BridgeCarriesOneConnection | src/pipeline/Pipeline.cpp:1092-1124 | both hops of a bridge stand between an output and an input exactly if they were connected across and the bridge is theirs, although bridges are shared |
| Bridging.NothingCrossesAfterwards | src/pipeline/Pipeline.cpp:1055-1126 | no connection of the rewritten graph joins a host node and a device node |
| Bridging.DeviceToHostStep | src/pipeline/Pipeline.cpp:1066-1094 | linking the first hop, unlinking the connection and linking the second hop is one step of the rewriting, whether the bridge is new or shared |
| Bridging.HostToDeviceStep | src/pipeline/Pipeline.cpp:1095-1125 | the same from host to device |
| Bridging.StreamNameClash | src/pipeline/Pipeline.cpp:1075 | two stream names are equal exactly for the same node and for groups and names that run together to the same text |
| Bridging.TwoPortsWithOneStream | src/pipeline/Pipeline.cpp:1075 | group a, name b_c and group a_b, name c of any one node get the same stream name |
| Bridging.ClashingOutputsAreNotBuildable | src/pipeline/Pipeline.cpp:1075-1081 | two crossing outputs of one node whose groups and names run together to the same text make the graph unbuildable |
| Bridging.TwoPortsAreNotBuildable | src/pipeline/Pipeline.cpp:1075-1081 | so do group a, name b_c and group a_b, name c of one device node |
| Bridging.TakenName | src/pipeline/Pipeline.cpp:1078-1080 | a stream name found taken belongs to another crossing port, so that the graph is not buildable in any order |
| Bridging.FitPorts | src/pipeline/Pipeline.cpp:1085-1094 | linking to a bridge end fails exactly for ports whose types do not fit an XLink stream |
| Bridging.HopsAreNew | src/pipeline/Pipeline.cpp:1092-1094 | the hop that a connection adds is not there yet, so that relinking never meets the already-linked error |
| Bridging.BuiltPipelineDelivers | src/pipeline/Pipeline.cpp:1055-1126 | what the pass leaves behind delivers as before between all original ports, over exactly one route of any length, and crosses nowhere |
| Bridging.GroupsStayUnlinked | src/pipeline/Pipeline.cpp:1070-1103 | the bridge nodes are no group nodes, so that the pass links no port of a group node |
| Bridging.BridgesInFull | src/pipeline/Pipeline.cpp:1070-1121 | every bridge in full: which XLink nodes stand on which side, the text of their stream name, and the order of the pair of ids that is noted |
| Pipeline.PipelineImpl.Link | src/pipeline/Node.cpp:150-171 | keeps connections, connectedInputs and connectedOutputs mirrored: the pair is added to all three or, on an error, to none |
| Pipeline.PipelineImpl.Unlink | src/pipeline/Node.cpp:216-230 | keeps the three structures mirrored; fails exactly for pairs that are not connected |
| Pipeline.PipelineImpl.RecordedMeansEdge | src/pipeline/Node.cpp:205-214 | with unique names, a recorded connection of the same nodes and names is the connection of these two ports |
| Pipeline.PipelineImpl.Send | src/pipeline/Node.cpp:232-258 | every connected input gets the message exactly once and no other input gets anything |
| Pipeline.PipelineImpl.Remove | src/pipeline/Pipeline.cpp:655-669 | the node's connections disappear from the connection sets, the lists in the ports keep mirroring the old connections, and all is mirrored again exactly if the node had no connection with another node |
| Pipeline.PipelineImpl.Create | src/pipeline/Pipeline.cpp:808-854 | a new node gets an id no other node has |
| Pipeline.PipelineImpl.GetConnectionsInternal | src/pipeline/Pipeline.cpp:345-355 | every connection once, in any order |
| Pipeline.PipelineImpl.BridgeOutput | src/pipeline/Pipeline.cpp:1067-1092 | one bridge per device output: an existing one is used again, a new one gets its own two nodes and stream name |
| Pipeline.PipelineImpl.BridgeInput | src/pipeline/Pipeline.cpp:1096-1122 | one bridge per device input |
| Pipeline.PipelineImpl.RerouteToHost | src/pipeline/Pipeline.cpp:1066-1094 | one crossing connection is replaced by its two hops, or the graph is not buildable |
| Pipeline.PipelineImpl.RerouteToDevice | src/pipeline/Pipeline.cpp:1095-1125 | the same from host to device |
| Pipeline.PipelineImpl.Build | src/pipeline/Pipeline.cpp:1055-1126 | in any order of the connections: succeeds exactly if the graph is buildable; then the connections are the rewritten ones, delivery between original ports is as before over exactly one route, nothing crosses, group nodes stay unlinked, and as many bridges are noted as device ports took part in crossings, with distinct stream names |
| Pipeline.PipelineImpl.NodeInfos | src/pipeline/Pipeline.cpp:397-412 | one entry per node under its id |
| Pipeline.PipelineImpl.GetPipelineSchema | src/pipeline/Pipeline.cpp:512-548 | throws exactly if a connection crosses; otherwise lists every node and every connection once and is closed |
| Pipeline.PipelineImpl.SchemaInFull | src/pipeline/Pipeline.cpp:512-548 | the fields of every node entry and of every connection entry, and no other connection entries |
| Pipeline.PipelineImpl.GetDevicePipelineSchema | src/pipeline/Pipeline.cpp:550-577 | throws exactly if a connection crosses or has just one end on a node that is left out; otherwise holds exactly the device nodes and their connections and is closed |
| Pipeline.PipelineImpl.DeviceSchemaInFull | src/pipeline/Pipeline.cpp:550-577 | the nodes of the device schema are those that run on the device and are no groups, its connections those that start there, field by field |
| Pipeline.PipelineImpl.Start | src/pipeline/Pipeline.cpp:1185-1208 | after a build the full schema cannot fail, and the device schema cannot either if no group node had a linked port; it then holds exactly the device nodes and, once each, the connections between device nodes |
| Pipeline.DeviceNodesKeepToThemselves | src/pipeline/Pipeline.cpp:563-575 | where nothing crosses and no group is linked, no connection has just one end left in the device schema |
| Pipeline.RemoveHostConnections | src/pipeline/Pipeline.cpp:563-575 | drops exactly the connections between nodes that are left out |
| Text.IdReadsBack | src/pipeline/Pipeline.cpp:1075 | a rendered id in front of a non-digit can be read back, whatever follows |
| Text.DecimalSpells | src/pipeline/Pipeline.cpp:1075 | a rendered id spells its number in decimal, without leading zeros |
| Matrix.MatMulAssociates | src/device/CalibrationHandler.cpp:539 | the 4x4 product is associative |
| Matrix.InverseOnTheLeft | src/utility/matrixOps.cpp:537-573 | the SE(3) inverse of a rigid transform is its inverse from the left |
| Matrix.InverseOnTheRight | src/utility/matrixOps.cpp:537-573 | and from the right |
| Matrix.InverseIsUnique | src/utility/matrixOps.cpp:537-573 | whatever inverts a rigid transform is its SE(3) inverse |
| Matrix.InverseOfInverse | src/utility/matrixOps.cpp:537-573 | inverting a rigid transform twice gives it back |
| Matrix.ProductIsRigid | src/device/CalibrationHandler.cpp:539 | rigid transforms are closed under products |
| Matrix.ScalingIsMultiplicative | src/device/CalibrationHandler.cpp:78-85 | changing the length unit commutes with composition |
| ExtrinsicGraph.FollowFindsOrigin | src/device/CalibrationHandler.cpp:95-111 | following links ends in an origin exactly if a chain leads there |
| ExtrinsicGraph.FollowIsRight | src/device/CalibrationHandler.cpp:95-111 | a cycle or dangling reference found on the way is in the graph |
| ExtrinsicGraph.OriginIsUnique | src/device/CalibrationHandler.cpp:556-585 | a camera has at most one origin |
| ExtrinsicGraph.ChainIsSimple | src/device/CalibrationHandler.cpp:561-582 | a chain to an origin meets no camera twice |
| ExtrinsicGraph.CycleHasNoOrigin | src/device/CalibrationHandler.cpp:570-573 | from a camera on a cycle no origin is reached |
| Calibration.RecursionIsChainProduct | src/device/CalibrationHandler.cpp:877-933 | the recursion gives the product of the stored transforms along the chain, or throws exactly if the data is old, or a link lacks its rotation or a spec translation that is asked for |
| Calibration.ToOriginIsChainProduct | src/device/CalibrationHandler.cpp:544-597 | the transform to the origin is the product along the chain of any length |
| Calibration.ExtrinsicsExistExactly | src/device/CalibrationHandler.cpp:504-542 | two cameras have a transform exactly if the data is of version 4 or later, their origins are the same and every camera on either chain but the origin has its rotation and, if it is asked for, a specification translation other than zero |
| Calibration.NoChainNoExtrinsics | src/device/CalibrationHandler.cpp:544-597 | a camera without a chain to an origin has no transform |
| Calibration.ExtrinsicsCompose | src/device/CalibrationHandler.cpp:504-542 | E(b,c) E(a,b) = E(a,c), in every unit |
| Calibration.ExtrinsicsToItself | src/device/CalibrationHandler.cpp:504-542 | E(a,a) is the identity |
| Calibration.ExtrinsicsInvert | src/device/CalibrationHandler.cpp:504-542 | E(b,a) exists whenever E(a,b) does and is its inverse |
| Calibration.ExtrinsicsAreRigid | src/device/CalibrationHandler.cpp:504-542 | all transforms between cameras are rigid |
| Calibration.LinkGivesStoredTransform | src/device/CalibrationHandler.cpp:504-542 | from a camera to the one it links to, the transform holds the nine entries of the rotation and the measured or the specification translation in the unit asked for, for chains of any length |
| Calibration.MetresInEveryUnit | src/device/CalibrationHandler.cpp:78-86 | the translation in metres times 100, 1000, 39.3701 and 3.28084 is that in centimetres, millimetres, inches and feet |
| Calibration.ImuFormula | src/device/CalibrationHandler.cpp:789-819 | both branches of the IMU transform are one formula |
| Calibration.ImuToItsCamera | src/device/CalibrationHandler.cpp:796-811 | to the camera it is calibrated against, the transform of the IMU holds its rotation and the translation asked for, entry by entry, even without a calibration of that camera |
| Calibration.ImuExtrinsicsExistExactly | src/device/CalibrationHandler.cpp:789-819 | the IMU has a transform to a camera exactly if it is calibrated against a camera, the camera is known, and the two are one or have a transform |
| Calibration.ImuFollowsCameras | src/device/CalibrationHandler.cpp:789-819 | the IMU transform of one camera carried on to another is the IMU transform of that one, whichever branches computed them |
| Calibration.CameraToImuInverts | src/device/CalibrationHandler.cpp:783-787 | the transform to the IMU inverts the one from the IMU on both sides, and inverting it again gives that one back |
| ExtrinsicPoints.ProductPlaces | src/device/CalibrationHandler.cpp:538-540 | a product places a point as its factors do, the second one first |
| ExtrinsicPoints.ChainCarries | src/device/CalibrationHandler.cpp:883-938 | the product along a chain carries every point camera by camera, with the rotation and the translation of each link |
| ExtrinsicPoints.ExtrinsicsCarryPoints | src/device/CalibrationHandler.cpp:504-542 | the transform between two cameras takes a point to where the links of both carry it to one place in front of their origin |
| ExtrinsicPoints.ImuCarriesPoints | src/device/CalibrationHandler.cpp:789-819 | so does that of the IMU, across its own link first |
| Calibration.CalibrationHandler.GetExtrinsicsToOrigin | src/device/CalibrationHandler.cpp:544-597 | the loop over links, with its list of visited cameras, computes the transform to the origin or throws when it has to |
| Calibration.CalibrationHandler.ValidateExtrinsicGraph | src/device/CalibrationHandler.cpp:87-129 | whatever the order of the cameras, reports no error exactly if all cameras reach one origin over links that can be used; a reported cycle, dangling reference or pair of origins is there |
| Calibration.CalibrationHandler.SetCameraExtrinsics | src/device/CalibrationHandler.cpp:1120-1154 | stores the link, and only it, even when it then throws; where no reference dangles and every link can be used, throws its cycle error exactly if the updated graph has a cycle |
| Calibration.CalibrationHandler.CheckSrcLinks | src/device/CalibrationHandler.cpp:1228-1256 | true exactly if the cameras form one chain from the head to an origin |
| Calibration.SingleChainIsConsistent | src/device/CalibrationHandler.cpp:1228-1256 | such a chain passes the validation |
| Calibration.CyclesAreInconsistent | src/device/CalibrationHandler.cpp:96-98 | a graph with a cycle never passes |
| CameraIntrinsics.Rescale | src/device/CalibrationHandler.cpp:365-401 | in every branch the new matrix is the old one seen through a map that keeps the centre; if the aspect ratio is kept it is uniform, with the scale of the width between the thresholds 1.34, 1.5 and 1.778 and else the larger one |
| CameraIntrinsics.MappedProjects | src/device/CalibrationHandler.cpp:365-401 | seeing through a matrix that an affine map was applied to is seeing and then mapping the pixel |
| CameraIntrinsics.CentreStaysCentre | src/device/CalibrationHandler.cpp:377-394 | the map sends the centre of the image to the centre of the resized image |
| CameraIntrinsics.LetterboxFitsWidth | src/device/CalibrationHandler.cpp:369-381 | the thresholds make the width the tighter side, so that the arm for too wide an image is never taken |
| CameraIntrinsics.LargerScaleCovers | src/device/CalibrationHandler.cpp:383-386 | the scale chosen covers the target and fits it exactly in one direction |
| Bspatch.OfftinIsSignMagnitude | src/bspatch/bspatch.c:37-59 | the eight bytes are a little-endian magnitude with the sign in the top bit |
| Bspatch.OfftinReadsBack | src/bspatch/bspatch.c:37-59 | reading inverts writing for every number below 2^63 in magnitude |
| Bspatch.OfftoutWritesBack | src/bspatch/bspatch.c:37-59 | writing gives back the bytes read, for all but the negative zero |
| Bspatch.AddInto | src/bspatch/bspatch.c:186-199 | the diff bytes plus the old bytes modulo 256, byte by byte, old bytes outside the old file counting as zero, land at the cursor and nothing else changes |
| Bspatch.PatchLoop | src/bspatch/bspatch.c:156-226 | for every control block without negative lengths the loop ends and writes what the script describes, or returns -1 exactly if the script runs out of edits or bytes or makes too many; then what was written so far stands and the rest of the buffer is untouched |
| Bspatch.AddedBytes | src/bspatch/bspatch.c:186-199 | whatever the script, every byte that an edit adds is the diff byte in turn plus the old byte at its position, modulo 256 |
| Bspatch.CopiedBytes | src/bspatch/bspatch.c:213-224 | every byte that an edit copies is the extra byte in turn |
| Bspatch.StopsExactly | src/bspatch/bspatch.c:158-226 | a run ends with the full file, at the end of the script, in front of an edit whose diff bytes do not fit or behind them if only its extra bytes do not |
| Bspatch.NoChangeGivesOldFile | src/bspatch/bspatch.c:186-199 | one edit over the whole old file with a block of zeros gives the old file |
| Bspatch.PatchedExactly | src/bspatch/bspatch.c:156-226 | patching makes a given new file exactly if the script fits it and the blocks begin with new minus old bytes and with plain new bytes, for any old file and any seeks |
| Bspatch.WholeScriptFits | src/bspatch/bspatch.c:97-101 | a script whose add and copy lengths sum to the size of the new file fits it |
| Bspatch.ControlReadsBack | src/bspatch/bspatch.c:161-176 | the control block written for a script is read as that script |
| Bspatch.BspatchMem | src/bspatch/bspatch.c:76-234 | 0 and the whole new file exactly if header, decompression and script work out, else -1 and what was written so far; bytes not written keep their value |
| Bspatch.PatchFileWorks | src/bspatch/bspatch.c:89-148 | a patch file made for a script reproduces the new file exactly if its blocks fit the room reserved for them, and writes nothing otherwise |
| Bspatch.CapacityWraps | src/bspatch/bspatch.c:130 | the room for a block is four times the size of the new file, modulo 2^32 |
| Bspatch.FailsExactlyWithManyEdits | src/bspatch/bspatch.c:129-148 | for new files below 1 GiB that room suffices exactly with at most one edit per six bytes of the new file |
| Bspatch.OneByteFileIsRefused | src/bspatch/bspatch.c:129-148 | one edit is too many for a new file of one byte |
| OpenVINO.BigEndianToHost | src/openvino/OpenVINO.cpp:64-82 | flips the eight bytes on a little-endian host and nothing on a big-endian one |
| OpenVINO.ReadInt64 | src/openvino/OpenVINO.cpp:85-88 | gives the big-endian value on either host |
| OpenVINO.AccumulateWrapsTheSum | src/openvino/OpenVINO.cpp:176 | accumulating into an int gives the sum reduced to 32 bits |
| OpenVINO.AccumulateIsRightBelow2GiB | src/openvino/OpenVINO.cpp:176 | which is the sum exactly below 2^31, and then for every prefix |
| OpenVINO.FromData | src/openvino/OpenVINO.cpp:151-163 | seventeen big-endian sizes, taken as signed numbers |
| OpenVINO.AsInt64IsSigned | src/openvino/OpenVINO.cpp:151-163 | sixty-four bits read as a signed number |
| OpenVINO.SuperBlob.LoadAndCheckHeader | src/openvino/OpenVINO.cpp:184-190 | refuses data too short for a header and loads the header otherwise |
| OpenVINO.SuperBlob.ValidateSuperblob | src/openvino/OpenVINO.cpp:192-209 | accepts exactly data of the size its header announces whose patches are empty or marked |
| OpenVINO.WellFormedMeans | src/openvino/OpenVINO.cpp:192-209 | which data that is: the size is the announced one and every patch that is not empty begins with "BSDIFF" |
| OpenVINO.SuperBlob.GetBlobWithNumShaves | src/openvino/OpenVINO.cpp:102-137 | out of range exactly for numbers other than 1 to 16; otherwise the result is exactly what patch k makes of the blob, and the bytes of the base blob itself for an empty patch |
| OpenVINO.PatchBlob | src/openvino/OpenVINO.cpp:121-127 | as much as the patch gets to write, zeros behind it, in a buffer of the announced size; a length error for a negative size |
| OpenVINO.Open | src/openvino/OpenVINO.cpp:96-100 | constructs exactly from well-formed data, on either host |
| OpenVINO.RegionsTile | src/openvino/OpenVINO.cpp:165-182 | in accepted data with moderate sizes the header, the blob and the sixteen patches lie end to end and fill the buffer |
| OpenVINO.PackedHeader | src/openvino/OpenVINO.cpp:151-163 | the header of a packed superblob reads back |
| OpenVINO.OpensExactlyBelow2GiB | src/openvino/OpenVINO.cpp:192-209 | a packed superblob is accepted exactly if its patches total less than 2 GiB |
| OpenVINO.PackedPatch | src/openvino/OpenVINO.cpp:165-182 | blob and patch k read back as packed |
| OpenVINO.EmptyPatchGivesBaseBlob | src/openvino/OpenVINO.cpp:128-132 | a superblob packed with an empty patch gives the base blob |
| OpenVINO.TargetIsRebuilt | src/openvino/OpenVINO.cpp:102-137 | packed with the patch for a target, the superblob gives that target exactly if the blocks of the patch fit the room reserved for them, and as many zeros otherwise |
| OpenVINO.TargetIsRebuiltBelow1GiB | src/openvino/OpenVINO.cpp:102-137 | below 1 GiB that is decided by one edit per six bytes of the target |
| Bytes.LittleEndianReadsBack | src/openvino/BlobReader.cpp:28-37 | little-endian numbers read back |
| Bytes.BigEndianReadsBack | src/opencv/RecordReplay.cpp:182-186 | big-endian numbers read back |
| Bytes.LittleEndianIsUnique | src/openvino/OpenVINO.cpp:85-88 | the bytes of a little-endian number are determined by it |
| Bits.AndHighMask | src/device/DeviceBootloader.cpp:108 | masking with ones from bit k up clears the lower bits |
| Bits.AndLowMask | src/openvino/OpenVINO.cpp:78 | masking with k ones keeps the lower bits |
| Bits.OrDisjoint | src/openvino/OpenVINO.cpp:78 | an or of numbers without common bits is their sum |
| BlobReader.TableStaysInside | src/openvino/BlobReader.cpp:27-37 | a table read without an exception was read from inside the blob alone: whatever bytes follow the blob, the result is the same |
| BlobReader.ReadIO | src/openvino/BlobReader.cpp:62-110 | reads one table entry field by field, or throws what the first failing field throws |
| BlobReader.EntryReadsBack | src/openvino/BlobReader.cpp:62-110 | an entry laid out field by field, with a zero-padded name and its dimensions in the constant section, is read as its tensor |
| BlobReader.EntriesReadBack | src/openvino/BlobReader.cpp:112-128 | so are tables of any length |
| BlobReader.LastOneWins | src/openvino/BlobReader.cpp:114-119 | the table holds a tensor exactly for the names without "@shape", and of several of one name the last |
| BlobReader.CollectedExactly | src/openvino/BlobReader.cpp:39-41 | the table gives a tensor for a name exactly if "@shape" is nowhere in the name and the tensor is that of the last record with it |
| BlobReader.BlobReader.Parse | src/openvino/BlobReader.cpp:45-129 | refuses short data, a wrong magic number and a too long announced size before changing anything; otherwise throws exactly the first exception of the two tables, if any, and leaves in them the entries read until then |
| BlobReader.FilledIsRead | src/openvino/BlobReader.cpp:112-128 | without an exception these are all entries |
| BlobReader.TablesReadBack | src/openvino/BlobReader.cpp:112-128 | parsing gives exactly the inputs and outputs that were laid out |
| BlobReader.HeaderReadsBack | src/openvino/BlobReader.cpp:45-62 | a header of twenty numbers laid out behind the ELF header reads back number by number |
| RecordReplay.FindStartCode | src/opencv/RecordReplay.cpp:29-45 | the first start code at or after the offset, with its length of three or four |
| RecordReplay.SpansInOrder | src/opencv/RecordReplay.cpp:47-71 | on any data the spans are in bounds, not empty, disjoint and increasing |
| RecordReplay.H26xNals.Next | src/opencv/RecordReplay.cpp:47-71 | hands out the first unit still to come and leaves the rest; nothing exactly at the end or in front of an empty unit, and then tells where it stands |
| RecordReplay.SplitsFromExactly | src/opencv/RecordReplay.cpp:47-71 | for every list of units behind three- or four-byte start codes, repeated calls give back exactly those units if and only if each is separable |
| RecordReplay.SeparableBeforeAnother | src/opencv/RecordReplay.cpp:30-43 | a unit is separable from the next exactly if it holds no start code prefix and does not end in zero before a three-byte start code |
| RecordReplay.SplitUndoesFraming | src/opencv/RecordReplay.cpp:47-71 | hence splitting undoes framing for every standard stream |
| RecordReplay.NoCodeIsOneUnit | src/opencv/RecordReplay.cpp:47-71 | a buffer without a start code is one unit |
| RecordReplay.LeadingBytesAreSkipped | src/opencv/RecordReplay.cpp:47-71 | what comes before the first start code is not handed out |
| RecordReplay.VideoRecorder.Take | src/opencv/RecordReplay.cpp:137-164 | parameter sets go to the library once a track is open, slices to the sample |
| RecordReplay.VideoRecorder.Sort | src/opencv/RecordReplay.cpp:131-166 | collects exactly the units of type 1 and 5, in order, marks a sync sample exactly if one of them is of type 5, and opens the track exactly at a sequence parameter set of four bytes |
| RecordReplay.SampleHoldsSlices | src/opencv/RecordReplay.cpp:154-160 | the sample holds exactly the units whose first byte is 1 or 5 modulo 32, in the order of their indices |
| RecordReplay.SampleCounts | src/opencv/RecordReplay.cpp:154-160 | each of them as often as it comes, and nothing else |
| RecordReplay.SampleMeans | src/opencv/RecordReplay.cpp:154-157 | it is a sync sample exactly if one of its units is of type 5 |
| RecordReplay.FirstLongSpsOpens | src/opencv/RecordReplay.cpp:138-153 | the track is opened by the first unit of type 7 with four bytes, with its second to fourth byte, and no parameter set is passed on before |
| RecordReplay.OpenTrackTakesParameters | src/opencv/RecordReplay.cpp:138-153 | with an open track every unit of type 7 and 8 is passed on as what it is, in order |
| RecordReplay.VideoRecorder.Write | src/opencv/RecordReplay.cpp:130-194 | writes one length-prefixed sample of the precomputed size, or none without a track or slices |
| RecordReplay.SampleReadsBackExactly | src/opencv/RecordReplay.cpp:179-188 | reading a sample by its length fields gives back its units exactly if each length fits four bytes |
| RecordReplay.SampleIsInvertible | src/opencv/RecordReplay.cpp:131-188 | so for every buffer below 4 GiB the sample reads back as its slices |
| RecordReplay.StreamReachesTheSample | src/opencv/RecordReplay.cpp:131-188 | the slices framed into a standard stream are what its sample holds |
| WaitAny.NoLostWakeUp | src/pipeline/MessageQueue.cpp:220-267 | in every interleaving, while the waiter sleeps and an open queue has a message or all are closed, it has been woken or someone has still to notify a queue on which it is registered |
| WaitAny.NotificationWakes | src/pipeline/MessageQueue.cpp:208-216 | that notification lets the sleeping waiter look again |
| WaitAny.NothingLeftBehind | src/pipeline/MessageQueue.cpp:224-228 | after every return and every exception no notifier of the call is left on any queue, even with a queue listed twice |
| WaitAny.OthersKeepTheirNotifiers | src/pipeline/MessageQueue.cpp:224-228 | no step of the waiter touches another's registration |
| WaitAny.OutcomeTellsOfClosing | src/pipeline/MessageQueue.cpp:253-266 | an exception means that a queue is closed, and so does the answer false to an untimed call on at least one queue while nobody else takes or drops messages |
| WaitAny.TrueMeansMessage | src/pipeline/MessageQueue.cpp:255-266 | with a timeout or without, the answer true comes of a queue that was found open and then had a message |
| WaitAny.FalseMeansNothingFound | src/pipeline/MessageQueue.cpp:255-266 | the answer false comes of a final check in which every queue was at some moment closed or empty |
| WaitAny.EmptyIsNotAnsweredTrue | src/pipeline/MessageQueue.cpp:220-267 | a call on queues that stay empty does not answer true |
| WaitAny.MessageIsNotAnsweredFalse | src/pipeline/MessageQueue.cpp:255-266 | nor false if one queue is open and holds a message all through the final check |
| WaitAny.ClosedMeanwhileThrows | src/pipeline/MessageQueue.cpp:236-265 | a check that hits a queue closed after it was found open makes the call throw, unless it is the predicate of the wait, which then goes on to the final check |
| WaitAny.ThrowsOnlyThen | src/pipeline/MessageQueue.cpp:236-265 | nothing else makes the call throw |
| WaitAny.WaiterGoesOn | src/pipeline/MessageQueue.cpp:220-267 | until the call is over the waiter can take a step, and asleep too once it is woken or if it has a deadline |
| WaitAny.DeadlineAnswersFalse | src/pipeline/MessageQueue.cpp:255-266 | a call with a timeout on queues that stay open and empty can end, with the answer false |
| WaitAny.FalseMeansAllClosedExactly | src/pipeline/MessageQueue.cpp:220-267 | in every run in which no deadline passed the answer false means that all queues are closed, if and only if the call waits on no queue or on a single one, possibly listed several times, of which nobody else takes messages and no send drops them |
| WaitAny.OpenRun | src/pipeline/MessageQueue.cpp:253-266 | any other call has a run in time that answers false while a queue is open |
| WaitAny.FalseAlthoughOpen | src/pipeline/MessageQueue.cpp:253-266 | such a run for two queues |
| WaitAny.FalseAlthoughNothingClosed | include/depthai/utility/LockingQueue.hpp:155-164 | such a run for a single queue whose only message a send drops, because the size of the queue was set to 0 |
| WaitAny.WordStaysOnItsWay | src/pipeline/MessageQueue.cpp:140-163 | whatever others do, a new message or a closing comes with a notification, and none that is on its way is lost |
| WaitAny.SafeStays | src/pipeline/MessageQueue.cpp:220-267 | every step of anyone keeps the invariant |
| MessageQueue.HoldsTheLatest | include/depthai/utility/LockingQueue.hpp:155-185 | a queue that never blocks holds the latest messages in order, up to its size |
| MessageQueue.LockingQueue.Push | include/depthai/utility/LockingQueue.hpp:155-185 | with size 0 empties the queue, else drops the oldest or, when blocking, goes on once there is room; refused exactly when blocking and destroyed |
| MessageQueue.MessageQueue.AddNotifier | src/pipeline/MessageQueue.cpp:102-114 | files the notifier under an id not in use and changes no other entry: the registration step of `WaitAny` |
| MessageQueue.MessageQueue.RemoveNotifier | src/pipeline/MessageQueue.cpp:128-138 | removes exactly that id and tells whether it was there: the removal step of `WaitAny` |
| MessageQueue.MessageQueue.NotifyListeners | src/pipeline/MessageQueue.cpp:208-216 | releases every registered notifier and no other; the followed waiter's semaphore is released exactly as by the notification of `WaitAny` |
| MessageQueue.MessageQueue.Close | src/pipeline/MessageQueue.cpp:31-39 | destroys the queue and wakes everyone registered: a closing and then a notification of `WaitAny` |
| MessageQueue.MessageQueue.Send | src/pipeline/MessageQueue.cpp:140-163 | refuses null messages and closed queues before changing anything; otherwise pushes and wakes everyone registered, also if the queue was closed while it waited: a push and then a notification of `WaitAny` |
| MessageQueue.MessageQueue.TryGet | include/depthai/pipeline/MessageQueue.hpp:278-300 | throws for a closed queue; otherwise takes the oldest message, if any: a consumption of `WaitAny` |
| AssetManager.PaddingAligns | src/pipeline/AssetManager.cpp:157-161 | the padding leads to the next multiple of the alignment |
| AssetManager.AssetManager.Set | src/pipeline/AssetManager.cpp:49-53 | files the asset under its key, in place of an earlier one |
| AssetManager.AssetManager.SetAs | src/pipeline/AssetManager.cpp:55-61 | files data and alignment under the given key |
| AssetManager.AssetManager.SetData | src/pipeline/AssetManager.cpp:80-97 | files data; a negative alignment is kept as a large unsigned one |
| AssetManager.AssetManager.Append | src/pipeline/AssetManager.cpp:155-173 | the whole effect for every 32-bit alignment: the padding is narrowed to `int`, so that resizing adds to the storage, cuts it or throws |
| AssetManager.AppendsOrThrows | src/pipeline/AssetManager.cpp:158-167 | below 4 GiB it adds exactly the padding, or throws exactly if that does not fit an `int` |
| AssetManager.ModestAlignmentsFit | src/pipeline/AssetManager.cpp:158-161 | with alignments up to 2^31 every padding fits |
| AssetManager.LargeAlignmentDoesNotFit | src/pipeline/AssetManager.cpp:158-167 | two small assets of which the second does not fit |
| AssetManager.AssetManager.Serialize | src/pipeline/AssetManager.cpp:147-175 | in any map order and for every 32-bit alignment, where the assets take up less than 4 GiB: throws exactly if a padding does not fit an `int`; otherwise what was stored before is undisturbed, every asset is found aligned at its offset and no two regions overlap |
| AssetManager.PipelineAndNodeKeysDiffer | src/pipeline/Pipeline.cpp:304-308 | no pipeline key equals a node key |
| AssetManager.NodeKeysDiffer | src/pipeline/Pipeline.cpp:306-308 | node keys are equal exactly for the same node and the same asset key |
| AssetManager.SerializeAll | src/pipeline/Pipeline.cpp:296-311 | the same for the pipeline and all of its nodes: every asset is in the storage under its prefixed key, aligned, apart from each other, and nothing else is in the map |
| AssetManager.KeysInFull | src/pipeline/Pipeline.cpp:300-309 | the keys are exactly "/pipeline/" or "/node/", the id and "/" in front of the keys of the assets |
| DeviceBootloader.AlignUpRoundsUp | src/device/DeviceBootloader.cpp:106-114 | the mask trick rounds up to a multiple of 1 MiB or 64 KiB |
| DeviceBootloader.RoundUpIsLeast | src/device/DeviceBootloader.cpp:106-114 | to the least multiple that is not below its input |
| DeviceBootloader.Layout | src/device/DeviceBootloader.cpp:148-202 | for all payload sizes the sections follow each other behind the table, each at its alignment and no further than that asks for |
| DeviceBootloader.SectionsAreApart | src/device/DeviceBootloader.cpp:148-202 | no section reaches into another or into the table, and all end inside the package |
| DeviceBootloader.FillSection | src/device/DeviceBootloader.cpp:207-213 | a copy loop puts its payload in place and leaves in place what was copied before |
| DeviceBootloader.CreateDepthaiApplicationPackage | src/device/DeviceBootloader.cpp:65-225 | fails exactly without firmware; otherwise the table and, under its own name and at its alignment, every payload read back from their places, although they are copied in another order than they lie in |
| DepthaiNodeNames.CollectClasses | scripts/generate_depthai_nodes_names.py:20-27 | a class has the bases of the last definition of its name |
| DepthaiNodeNames.BaseNameExactly | scripts/generate_depthai_nodes_names.py:10-17 | behind any type arguments a name stands for itself and an attribute for its last part; nothing else has a name |
| DepthaiNodeNames.BaseNamesExactly | scripts/generate_depthai_nodes_names.py:26 | the bases of a class are the names of the expressions that have one |
| DepthaiNodeNames.RootsAreFive | scripts/generate_depthai_nodes_names.py:7 | a root base is one of five names |
| DepthaiNodeNames.InheritsUnfolds | scripts/generate_depthai_nodes_names.py:37-40 | a class inherits from a root exactly if it has a root base or a known base that does |
| DepthaiNodeNames.NoWayOut | scripts/generate_depthai_nodes_names.py:33-40 | out of a closed set of classes without root bases no way leads to a root |
| DepthaiNodeNames.IsDepthaiNode | scripts/generate_depthai_nodes_names.py:30-40 | with a fresh set, true exactly if a root is reached over known bases, for cyclic hierarchies and any order of bases, although the visited set is shared between branches and never reset |
| DepthaiNodeNames.NodeNames | scripts/generate_depthai_nodes_names.py:86 | exactly the known classes that inherit from a root |

## Left out

Of the pipeline:

- nested nodes: adding a tree of nodes, and ids within it
- connections to nodes that no longer exist, and the host-only pipeline's refusal of device nodes
- queues connected in the second loop of `build`, pipeline debugging nodes and their filter in the schemas, properties and port details in the schemas
- capacity and blocking of input queues in `Send`; the order in which inputs get a message
- the stream name is given to a bridge node when it is made, not afterwards; ports cannot be renamed
- port kinds that `canConnect` also looks at: every output is an `MSender` and every input an `SReceiver` (include/depthai/pipeline/Node.hpp:165 and :390), so that these tests never fire

Of calibration:

- rounding: all arithmetic is over real numbers
- Calibration.CalibrationHandler.ValidateExtrinsicGraph: a camera whose link is followed by another one is taken to have its rotation (3x3); without it the source reads past a matrix. A missing rotation on the last link is modelled
- Calibration.CalibrationHandler.SetCameraExtrinsics: sizes of matrices and vectors are types here, except for a missing rotation; the data with the new link is taken to have the rotations named above
- endless recursion on a cycle that bypasses the origin check is an exception here
- crop checks and offsets, sizes of -1, and distortion in `getCameraIntrinsics`; the last row (0, 0, 1) is taken for granted

Of patches and blobs:

- Bspatch.PatchLoop: takes lengths in the control block to be non-negative; positions and lengths are unbounded here, while `newpos + ctrl[0]` and `oldpos += ctrl[2]` can overflow 64 bits for lengths or seeks near 2^63
- Bspatch.BspatchMem: takes the block lengths in the header to stay inside the file and memory to be available; bzip2 is a function from bytes to bytes
- OpenVINO.SuperBlob.ValidateSuperblob: takes the first bytes of each announced patch to lie inside the data
- OpenVINO.SuperBlob.GetBlobWithNumShaves: takes blob and patch k to lie inside the data, as they do where `OpenVINO.RegionsTile` applies; parsing the result as a blob is not part of this step
- reading files, version tables, and VPUX blobs
- BlobReader.BlobReader.Parse: the host is little-endian

Of recording:

- the MP4 library, OpenCV and the MJPEG and raw branches; the calls to the MP4 library are recorded in order instead
- `init`, `close`, and the check for initialization

Of queues:

- WaitAny.NoLostWakeUp: the semaphore is a flag with an atomic release and acquire; a notification of all listeners of a queue is one step, and further releases by the same call are covered by notifications without a cause
- MessageQueue.MessageQueue.Send: what others do while a sender waits for room is a parameter; send timeouts, callbacks and `getAny` are left out

Of layouts:

- AssetManager.AssetManager.Serialize: assets that take up 4 GiB or more; a storage that cannot be resized throws, memory is otherwise available
- relative keys, root paths, and loading assets from files
- the contents of the section table: its checksums, flags and names are one opaque block of bytes; compressing firmware
- DeviceBootloader.CreateDepthaiApplicationPackage: takes the package to stay below 4 GiB

Of the node names script: parsing Python files, sorting the names, and writing the header.

Devices, XLink, RPC, HTTP, record and replay set-up and user interfaces are not part of this model.

# Models of an FFXI client's animation, audio, container and publishing code

This project models five parts of the client and proves what they keep over every input and every run.

- **Skeletal animation playback** (`playback.dfy`, `crossfade.dfy`, `animator.dfy`, `coordinator.dfy`). A clip's playhead
  wraps, counts loops and comes to rest; a slot crossfades between clips; eight slots own bones by lowest index. The
  classes keep the source's fields, and each method is tied to a function of the old state. A blend's incoming side and
  the slot's own clip are two objects that stay equal in every field, which is why dropping a blend cannot jump.
- **Skeleton composition** (`forest.dfy`, `pose.dfy`, `subtree.dfy`, `head_neck.dfy`, `look_bend.dfy`, `look_order.dfy`,
  `look_slip.dfy`, `look_stand.dfy`, `look_clamp.dfy`, `look_aim.dfy`, `matrix.dfy`, `bones.dfy`). The many-pass poser, the subtree
  searches, the head and neck finder, look bends with their ellipse clamp, and the single-pass bone posers with their
  quaternion algebra.
- **Audio** (`header.dfy`, `adpcm.dfy`, `interleave.dfy`, `decode.dfy`, `agreement.dfy`, `stream.dfy`, `pcm.dfy`,
  `audio.dfy`). The predictive decoder, its two batch forms, the looping stream, PCM, and the dispatch over formats.
- **The DAT chunk container** (`chunk.dfy`). The walker, the tree builder with its index path, and the printer.
- **Actor state machines and the issue publisher** (`actor_state.dfy`, `marker.dfy`, `publisher.dfy`,
  `publishing.dfy`, `published.dfy`).

Floats are modelled as reals and `sqrt` by its defining equation. What the code takes from elsewhere is a parameter: a
clip's records by joint and playhead, the arithmetic of one joint's update, `slerp`, the nearness of two rotations, the
least rotation between two directions. Audio samples are the 16-bit numerators before the division by 32768, and the
decoder's division truncates toward zero as the code's does. GitHub is the list of its issues, newest first.

## Where the code and its own words part

- A joint listed twice among the parent overrides is composed under the last of its overrides, but the subtree search
  reads the first. On a pose whose chains end, look bends keep every relative transform exactly when the two agree for
  all joints (`RelativesKeptIff`). One joint can slip exactly when its own two differ and are not each other's ancestors
  in the hierarchy the search reads (`SlipsIff`); six overrides of four joints give one that differs and cannot slip
  (`CircleCannotSlip`).
- Bends are sorted by authored depth and carry what is composed under their bone. Without overrides a bone's turn is
  final once taken (`TakenTurnsStand`, `WholeLookStands`). With them it is exactly as long as no later bend is above an earlier one in the
  composed hierarchy (`TakenTurnsStandIff`); four joints and one override break it (`ReparentedTurnMoves`).
- The two ADPCM batch decoders return one sequence, whatever the samples, exactly when the pattern of filters splits: up
  to some block every block has its channels all in range or all out, and from there on some one channel is always out
  (`DecodersAgreeIff`; with no sample bytes they agree anyway). Eight bytes they disagree on: `MixedBlocksExist`.
- The loop point of a batch decode counts header block sizes, the stream decoded blocks. They meet exactly when the loop
  is at the start, or the count does not saturate, the block size is even and every earlier filter is in range
  (`LoopPointExactWhen`).
- The single-pass bone posers compose a bone with its parent, for every pose, exactly when parents are filed first
  (`OneSweepIffParentsFirst`).
- A clamped look is handed back unchanged by a second clamp exactly when one of the two limits is positive; two negative
  limits clamp again (`ClampAgain`). A saturated turn stays on its target's side exactly when the limits are not both
  negative (`TowardIff`).
- The publisher calls itself idempotent. It is exactly when every published id is clean (no marker opening or close
  inside it, no whitespace at its edges) and the issues the first run creates push nothing it needs past the thousand
  listed (`SecondPublishSilentIff`). Any other id creates a new issue every run, and so does an issue older than the
  listing reaches (`PastListingCreates`).
- The out-time demand of an idle registration refuses exactly a negative out time (`DemandRefusesNegative`); a clip
  without one passes (`DemandPassesWithout`).

## Model

| member | source | states |
|---|---|---|
| DatChunk.ChunkWalker.Next | ffxi-dat/src/chunk.rs:45-95 | each call yields the next item of the walk of the bytes and moves the cursor past exactly that chunk, or ends for good; byte by byte, the kind is the low 7 bits of the header word and the size the 19 bits above them in units of 16 |
| DatChunk.WalkByBytes | ffxi-dat/src/chunk.rs:45-95 | what the walk yields at a position, in the header's own bytes: nothing for no size, an error for a size past the end, else the chunk and what follows it |
| DatChunk.ShadowFlagChangesNothing | ffxi-dat/src/chunk.rs:63-66 | the six bits above kind and size, the shadow flag among them, never change the walk |
| DatChunk.WalkTilesPrefix | ffxi-dat/src/chunk.rs:45-95 | on any bytes the chunks tile a prefix without gaps and an error can only be the single last item |
| DatChunk.Accept | ffxi-dat/src/chunk.rs:130-153 | one chunk pushed or one directory closed keeps the index path valid and adds the chunk's own line to the tree's outline |
| DatChunk.WalkTree | ffxi-dat/src/chunk.rs:108-156 | on any bytes the tree's preorder with depths is the walk's chunks of kind other than 0, indented by the open directories |
| DatChunk.LineDepth | ffxi-dat/src/chunk.rs:108-156 | a chunk lies as deep as the greatest surplus of kind 1 over kind 0 chunks in any stretch up to it: an end with nothing open counts for nothing |
| DatChunk.NoLine | ffxi-dat/src/chunk.rs:108-156 | ends and errors add nothing to the tree |
| DatChunk.OutlineDecidesTree | ffxi-dat/src/chunk.rs:103-106 | a preorder with depths determines the forest, so the tree builder's contract pins its whole result |
| DatChunk.PrintedOutline | ffxi-dat/src/chunk.rs:162-176 | printed forests walk to their own outline with every directory opened and closed in place, whatever follows |
| DatChunk.ParsePrinted | ffxi-dat/src/chunk.rs:108-176 | printing any forest within the size field and building the tree from its bytes gives the forest back |
| Forest.CommonHeight | ffxi-actor/src/skeleton_instance.rs:150-203 | chains that all end have one height: the only thing the poser's termination needs |
| Forest.DistinctChildrenAgree | ffxi-actor/src/skeleton_instance.rs:424-436 | with distinct overridden children the first and the last override of a joint are the same |
| Forest.AgreeingParents | ffxi-actor/src/skeleton_instance.rs:424-436 | then the parents the search reads are those the pose was composed with |
| Forest.AllRootedIff | ffxi-actor/src/skeleton_instance.rs:150-203 | all parent chains end if and only if every parent is a joint and no joint is its own ancestor, so those are the skeletons the poser composes |
| Pose.CollectOverrides | ffxi-actor/src/skeleton_instance.rs:143-149 | the last override of each in-range child wins |
| Pose.Sweep | ffxi-actor/src/skeleton_instance.rs:151-202 | a pass places every joint whose parent stood placed before it, moves none already placed, and reports missing parents exactly |
| Pose.PoseWorldMountedInto | ffxi-actor/src/skeleton_instance.rs:128-203 | in at most height + 1 passes every matrix is the recursive composition along its joint's parent chain, whatever the joint order and whatever the reused output and scratch held; joint by joint, from the last override's parent, from the mount at joint 2, or from the authored parent |
| Pose.WorldIsComposed | ffxi-actor/src/skeleton_instance.rs:170-196 | when every chain ends, composing along the chains gives each joint the transform its own rule makes of its parent's |
| Pose.ComposedIsWorld | ffxi-actor/src/skeleton_instance.rs:170-196 | no other transforms obey those rules |
| Subtree.SubtreeIsBelow | ffxi-actor/src/skeleton_instance.rs:424-448 | the search finds, without repeats and root first, exactly the joints whose parent chain reaches the root, on cyclic parents too |
| Subtree.PushUnseen | ffxi-actor/src/skeleton_instance.rs:441-445 | one round of the search adds exactly the unseen joints hung from the current one, in index order |
| Subtree.ComposedSubtree | ffxi-actor/src/skeleton_instance.rs:424-448 | terminates on every input and returns exactly the joints below the root under the overrides |
| Subtree.NeckSubtree | ffxi-actor/src/skeleton_instance.rs:450-464 | off a cycle the search without a seen-check returns the same list as the one with it |
| Subtree.NoOverridesSearch | ffxi-actor/src/skeleton_instance.rs:429-436 | with no overrides the composed search reads the authored parents, so both searches agree |
| HeadNeck.Chain | ffxi-actor/src/skeleton_instance.rs:375-386 | a joint's chain holds exactly its ancestors in order and stops on a cycle; only the chain's own parents must be joints |
| HeadNeck.FirstCommon | ffxi-actor/src/skeleton_instance.rs:387-392 | the first shared entry of the chains is the nearest common ancestor of both hands; none means there is no common one |
| HeadNeck.FirstNeck | ffxi-actor/src/skeleton_instance.rs:394-396 | the lowest-indexed child of the chest on neither hand's chain, or there is none |
| HeadNeck.CandidateSubtree | ffxi-actor/src/skeleton_instance.rs:394-404 | a neck's subtree is disjoint from both hand-to-root chains and the neck lies on no cycle |
| HeadNeck.MostChildren | ffxi-actor/src/skeleton_instance.rs:414-417 | of the subtree's joints the last with the most children |
| HeadNeck.FindHeadNeck | ffxi-actor/src/skeleton_instance.rs:367-420 | the chest is the nearest common ancestor of the hands, the neck its first free child, the subtree free of both arms and at most half the joints, the head the last of most children in it; every refusal has its reason, and parents off the hands' chains may be anything |
| Matrix.MulAssoc | ffxi-dat/src/bone.rs:212-224 | matrix multiplication is associative |
| Matrix.TransformMul | ffxi-dat/src/bone.rs:212-232 | a product moves a point as its factors do in turn |
| Matrix.NormMul | ffxi-dat/src/bone.rs:167-176 | the squared norm of a quaternion product is the product of the squared norms |
| Matrix.QuatAssoc | ffxi-dat/src/bone.rs:167-176 | quaternion multiplication is associative |
| Matrix.SpinCompose | ffxi-dat/src/bone.rs:167-176 | a product rotates as its factors do in turn |
| Matrix.QuarterTurns | ffxi-dat/src/bone.rs:178-210 | quarter turns about the axes take each axis on to the next, so the handedness is fixed |
| Matrix.QuatMulIsProduct | ffxi-dat/src/bone.rs:167-210 | for unit quaternions the matrix of the product is the product of the matrices, translations carried along |
| Matrix.RotationKeepsLength | ffxi-dat/src/bone.rs:178-240 | a unit quaternion's matrix keeps the length of directions |
| Bones.PoseWorld | ffxi-dat/src/bone.rs:77-95 | one pass composes each bone with the parent as posed so far, replacing overridden bones' bind data |
| Bones.PoseWorldAnim | ffxi-dat/src/bone.rs:97-122 | the same pass with overrides applied onto the bind data |
| Bones.BindPoseWorld | ffxi-dat/src/bone.rs:124-139 | the same pass with bind data alone |
| Bones.WorldIsChainProduct | ffxi-dat/src/bone.rs:77-139 | with parents first each bone's matrix is the product of the locals along its path from the root |
| Bones.OneSweepIffParentsFirst | ffxi-dat/src/bone.rs:77-139 | one pass hangs every bone from its parent, for all locals, if and only if parents are filed first |
| Bones.NoOverridesAgree | ffxi-dat/src/bone.rs:77-139 | with no overrides both overriding posers use the bind locals |
| Bones.IdentityOverridesVanish | ffxi-dat/src/bone.rs:97-122 | identity overrides in the animating poser are no overrides |
| Bones.AnimatedMoves | ffxi-dat/src/bone.rs:97-122 | an animated bone scales a point, turns it by its bind rotation and then by the override's, and moves it by both translations |
| Bones.ReplacedMoves | ffxi-dat/src/bone.rs:77-95 | a replaced bone scales, turns and moves a point by the override alone |
| Bones.BoundMoves | ffxi-dat/src/bone.rs:77-139 | in all three posers a bone without an override turns and moves a point by its bind data |
| Bones.StandsOnParent | ffxi-dat/src/bone.rs:77-139 | a bone filed under 255, itself or past the last bone stands alone, any other on what its parent's place holds at its turn |
| Bones.BindPoseIsRigid | ffxi-dat/src/bone.rs:124-139 | unit bind rotations give rigid world matrices whose rotation is the quaternion product along the chain |
| LookBend.RotateAboutPivot | ffxi-actor/src/look_bend.rs:401-424 | exactly the joints below the bent one are turned about its place, in one in-place pass |
| LookBend.TurnsAboutPivot | ffxi-actor/src/look_bend.rs:411-418 | the turn takes a point to the pivot and, from it, the rotated offset |
| LookBend.ApplyBends | ffxi-actor/src/look_bend.rs:314-323 | no weight changes nothing; otherwise the given bends are applied in order at the clamped weight |
| LookBend.BendKeepsPivot | ffxi-actor/src/look_bend.rs:411-423 | a bend leaves its own joint's place fixed |
| LookBend.OutsideUntouched | ffxi-actor/src/look_bend.rs:419-423 | no run of bends changes a joint outside the bent subtrees |
| LookBend.RelativeKept | ffxi-actor/src/look_bend.rs:401-424 | an unbent joint keeps its transform relative to its parent through any run of bends |
| LookBend.BonesStayAttached | ffxi-actor/src/look_bend.rs:401-424 | every joint, bent or not, keeps its place in its parent's frame through any run of bends |
| LookSlip.SlipsIff | ffxi-actor/src/skeleton_instance.rs:424-448 | a joint whose composed chain ends can be moved in its parent's frame by some run of bends if and only if its first and last overrides differ and are not both above each other in the searched hierarchy |
| LookSlip.CircleCannotSlip | ffxi-actor/src/skeleton_instance.rs:424-448 | six overrides of four joints, every composed chain ending, where a joint's overrides differ and yet no run of bends can slip it |
| LookSlip.RelativesKeptIff | ffxi-actor/src/look_bend.rs:297-324 | when every composed chain ends, no joint can slip in the hierarchy the pose was composed with if and only if all joints' first and last overrides agree |
| LookOrder.JointDepth | ffxi-actor/src/look_bend.rs:386-397 | the depth function of the joint: the hops to the root on every chain that ends; on any other it still stops within joints + 1 |
| LookOrder.DepthIsHops | ffxi-actor/src/look_bend.rs:386-397 | on a chain that ends neither the cycle guard nor the hop limit cuts the count short |
| LookOrder.HopsBound | ffxi-actor/src/look_bend.rs:389-392 | a chain that ends has fewer hops than joints, so the cycle guard never cuts one short |
| LookOrder.AuthoredBones | ffxi-actor/src/look_bend.rs:259-287 | each bone named by a live record once, in the order first named, under the last such record's limit; records with both axes zero, no reference or no such joint dropped |
| LookOrder.OneAxisIsEnough | ffxi-actor/src/look_bend.rs:259-287 | a record is live with either axis, not only with both |
| LookOrder.SortIsStable | ffxi-actor/src/look_bend.rs:377 | the sort by depth keeps turns of equal depth in the order they came |
| LookOrder.SortIsShallowFirst | ffxi-actor/src/look_bend.rs:377 | the sort puts shallower turns first and loses none |
| LookOrder.LookBends | ffxi-actor/src/look_bend.rs:328-381 | the bends are exactly the bones' turns, in record order, stably sorted by authored depth |
| LookOrder.LookTurns | ffxi-actor/src/look_bend.rs:328-381 | every bone with a turn gets exactly its own, once, clamped against the same operands, at its hops to the root, shallow first |
| LookOrder.TurnAims | ffxi-actor/src/look_bend.rs:344-374 | given any rotation taking one direction onto another, a bone's turn takes the shared forward onto the clamped direction |
| LookOrder.NoTurnWhen | ffxi-actor/src/look_bend.rs:354-361 | a bone takes no turn exactly when the clamp refuses or hands back nothing |
| LookOrder.FrameReads | ffxi-actor/src/look_bend.rs:222-244 | a frame is the unit forward and the way from the lowered neck to the point looked at |
| LookOrder.ApplyLookBends | ffxi-actor/src/look_bend.rs:301-324 | a whole look: no weight, no neck or no forward changes nothing; otherwise the bends taken from the pose as it stood are applied to it |
| LookStand.TakenTurnsStandIff | ffxi-actor/src/look_bend.rs:369-424 | for all poses and rotations no bend changes a bone already turned, if and only if no later joint is above an earlier one in the hierarchy composed with the overrides |
| LookStand.TakenTurnsStand | ffxi-actor/src/look_bend.rs:344-353 | where the bends follow the hierarchy the depths were taken from, as without overrides, shallow first makes every turn final |
| LookStand.WholeLookStands | ffxi-actor/src/look_bend.rs:301-424 | without overrides the bends a whole look takes from any records, at any weight, never change a bone they already turned |
| LookStand.ReparentedTurnMoves | ffxi-actor/src/look_bend.rs:369-424 | four joints and one override where turns sorted by authored depth move a bone already turned |
| LookClamp.BasisIsOrthonormal | ffxi-actor/src/look_bend.rs:102-109 | a basis exists if and only if the forward axis is off the up hint, and it is orthonormal |
| LookClamp.ProjectUnproject | ffxi-actor/src/look_bend.rs:111-117 | projecting undoes unprojecting and neither changes length |
| LookClamp.RimShape | ffxi-actor/src/look_bend.rs:189-200 | undoing the stretch puts the rim point on the authored ellipse, whichever axis was stretched |
| LookClamp.ClampAgain | ffxi-actor/src/look_bend.rs:151-201 | a saturated result is a unit vector ahead on the authored ellipse, and clamping it again hands it back unsaturated if and only if a guarded limit is positive |
| LookClamp.SaturatedTurnBound | ffxi-actor/src/look_bend.rs:131-150 | a saturated turn never exceeds the wider limit over the scale in tangent |
| LookClamp.UnsaturatedIsLook | ffxi-actor/src/look_bend.rs:151-183 | for any limits and scale an unsaturated result is the caller's own vector, and only a forward axis on the up hint is refused |
| LookAim.SaturatesIff | ffxi-actor/src/look_bend.rs:151-183 | the rim is reached if and only if the target, brought to the record's depth, lies outside the authored ellipse, targets level or behind measured 200 times out; a zero limit reads a thousandth, two negative ones take in nothing |
| LookAim.TowardIff | ffxi-actor/src/look_bend.rs:185-201 | a saturated turn to a target off the axis stays on the target's side if and only if the limits are not both negative |
| LookAim.SaturatedLeansToTarget | ffxi-actor/src/look_bend.rs:151-201 | what a saturated clamp hands back is a positive share of the target and something along the forward axis, and nothing else |
| LookAim.BasisFaces | ffxi-actor/src/look_bend.rs:101-109 | the basis' depth runs along the forward axis, its side is level and its up points up |
| Adpcm.DecodeBlockInto | ffxi-audio/src/adpcm.rs:15-55 | a block too short is an error that changes nothing; otherwise state and output are the recurrence over its nibbles, nothing for an unknown filter; in the format's own numbers, every sample is its shifted nibble and the weighted two samples before it, rounded toward zero and clamped |
| Adpcm.DecodedOnce | ffxi-audio/src/adpcm.rs:31-54 | those numbers leave exactly one way to decode a block |
| Adpcm.DecodeNibbles | ffxi-audio/src/adpcm.rs:31-54 | the nested loops compute the history recurrence |
| Adpcm.StateInRange | ffxi-audio/src/adpcm.rs:38-53 | states and samples stay within 16 bits |
| Adpcm.StepFitsI32 | ffxi-audio/src/adpcm.rs:38-53 | from any 16-bit state no product, sum or shift of a step leaves 32 bits |
| Interleaving.InterleaveAt | ffxi-audio/src/adpcm.rs:76-83 | output index frame * channels + channel holds that channel's sample of that frame |
| Interleaving.InterleaveJoined | ffxi-audio/src/adpcm.rs:76-115 | interleaving rows joined end to end is joining the interleaved pieces |
| Interleaving.InterleaveRows | ffxi-audio/src/adpcm.rs:76-83 | rows interleave to the shortest row's length |
| Decode.WholeBlock | ffxi-audio/src/adpcm.rs:86-97 | a block is decoded exactly when it is announced and whole |
| Decode.StatesStayInRange | ffxi-audio/src/adpcm.rs:86-117 | channel states stay 16-bit through any data |
| Decode.DecodeBlock | ffxi-audio/src/adpcm.rs:97-111 | one block advances every channel's state by its own slice and yields its row |
| Decode.DecodeInterleaved | ffxi-audio/src/adpcm.rs:86-117 | never fails on a valid header and returns the blocks' frames in order |
| Decode.DecodeChannelMajor | ffxi-audio/src/adpcm.rs:57-84 | never fails and returns the interleaving of whole channel rows |
| Agreement.DecodersAgreeIff | ffxi-audio/src/adpcm.rs:57-117 | for every choice of samples and in-range filters both decoders return one sequence, if and only if the pattern of filter validity splits or there are no sample bytes |
| Agreement.DecodersAgree | ffxi-audio/src/adpcm.rs:57-117 | on any data whose pattern splits both decoders return one sequence, with each frame where it belongs |
| Agreement.UniformWhen | ffxi-audio/src/adpcm.rs:57-117 | all filters in range, or one channel, makes every pattern even, and an even pattern splits |
| Agreement.LoudDisagrees | ffxi-audio/src/adpcm.rs:57-117 | for every pattern that does not split, concrete samples on which the decoders differ |
| Agreement.MixedBlocksExist | ffxi-audio/src/adpcm.rs:57-117 | eight concrete bytes on which they differ |
| Stream.AdpcmStream.constructor | ffxi-audio/src/stream.rs:16-29 | a new stream stands at block 0 with silent states and no snapshot |
| Stream.AdpcmStream.NextBlockInterleaved | ffxi-audio/src/stream.rs:31-63 | plays exactly the block it stands at or reports the end, snapshots on entering the loop block, and keeps states equal to the fold over the blocks before |
| Stream.AdpcmStream.ResetLoop | ffxi-audio/src/stream.rs:65-75 | returns to the snapshot's block with the fold up to it, or to the start |
| Stream.RunStaysInRange | ffxi-audio/src/stream.rs:31-75 | in every interleaving of calls the position stays within the whole blocks |
| Stream.BlocksInARow | ffxi-audio/src/stream.rs:31-63 | successive blocks concatenate to the batch frames of that range |
| Stream.FreshRunIsBatch | ffxi-audio/src/stream.rs:31-63 | a fresh stream played out is exactly the batch decode |
| Stream.ReplayIsSuffix | ffxi-audio/src/stream.rs:65-75 | after any run whatever a reset replays exactly the batch decode's suffix from its block |
| Stream.SnapshotWhen | ffxi-audio/src/stream.rs:37-39 | the snapshot is taken exactly when the loop block is stood at |
| Stream.LoopPointIs | ffxi-audio/src/lib.rs:94-99 | the loop point is the zero-based loop block times the block size, saturating at 4294967295 |
| Stream.FramesLength | ffxi-audio/src/lib.rs:92-99 | the frames before a block fill whole decoded blocks exactly when every filter before it is in range |
| Stream.LoopPointExactWhen | ffxi-audio/src/lib.rs:92-103 | the reported loop point, saturation included, is where the loop block starts if and only if the loop is at the start, or the count does not saturate, the block size is even and the filters before it are in range |
| Stream.LoopMechanismsAgree | ffxi-audio/src/lib.rs:82-103 | then dropping up to the loop point leaves exactly what the stream plays after a reset |
| Pcm.DecodePcm | ffxi-audio/src/pcm.rs:4-32 | output frame by frame holds each channel's words of the whole blocks |
| Pcm.WordByBytes | ffxi-audio/src/pcm.rs:18-24 | a word is its low byte and 256 times its high one, the high one signed |
| Pcm.OutIndexIsPermutation | ffxi-audio/src/pcm.rs:17-30 | word indices and output indices are in one-to-one correspondence |
| Pcm.OutputPermutesWords | ffxi-audio/src/pcm.rs:4-32 | the output is that permutation of the input words |
| AudioHeaders.ParseAny | ffxi-audio/src/header.rs:47-119 | a header that parses is at least 48 bytes and within the validated bounds |
| AudioHeaders.ParsedByBytes | ffxi-audio/src/header.rs:47-128 | both layouts byte by byte: which bytes are the format, the counters, the rate and the shape, which file streams, and every refusal |
| Audio.DecodeBytes | ffxi-audio/src/lib.rs:78-112 | a file is refused exactly for its header, with the header's own error, or for being ATRAC3; any other decodes with its format's own decoder, rate, channels and loop unit |
| Audio.ContainerDoesNotMatter | ffxi-audio/src/lib.rs:82-90 | where the pattern of filters splits streaming and non-streaming files decode alike |
| Audio.ContainerDoesNotMatterIff | ffxi-audio/src/lib.rs:82-90 | they decode alike whatever the samples if and only if the pattern splits or nothing is coded |
| Audio.LoopedFileIsLoopedStream | ffxi-audio/src/lib.rs:78-112 | a decoded file looped at its loop point goes on as the stream does after a reset |
| Playback.WrapsAdd | ffxi-actor/src/animation.rs:408-411 | wrapping partway and going on counts the wraps of going straight through |
| Playback.SkeletonAnimationContext.ApplyLoopBounds | ffxi-actor/src/animation.rs:400-419 | the wrap loop terminates, takes off as many whole lengths as fit, and completes when the count is reached |
| Playback.SkeletonAnimationContext.Advance | ffxi-actor/src/animation.rs:359-383 | one tick is the tick function of the old state, frozen clips included |
| Playback.ReachedIn | ffxi-actor/src/animation.rs:359-383 | under a loop duration of d frames the playhead runs one length in d frames, and without one a frame a frame |
| Playback.AdvancedSteady | ffxi-actor/src/animation.rs:359-419 | runs keep the playhead in range, and completion is for good |
| Playback.CompletedRests | ffxi-actor/src/animation.rs:413-416 | a completed clip rests on its end, a frozen one on its start |
| Playback.TimeIsConserved | ffxi-actor/src/animation.rs:359-419 | before completion loops times length plus playhead is the start plus the scaled elapsed time |
| Playback.CompletesExactlyAt | ffxi-actor/src/animation.rs:413-416 | a clip with k loops completes exactly when that total reaches k lengths |
| Playback.SplitTick | ffxi-actor/src/animation.rs:359-419 | a tick of a + b shows what a tick of a and one of b show |
| Playback.TicksDoNotMatter | ffxi-actor/src/animation.rs:359-419 | any cut of a stretch of time into ticks shows what one tick over it shows |
| Crossfade.ArcIsSampled | ffxi-actor/src/animation.rs:650-660 | a merge's pair is the sampled pair, each side up to its sign |
| Crossfade.ArcKeepsSides | ffxi-actor/src/animation.rs:95-100 | neither side of a held pair turns away from where it stood |
| Crossfade.SetsOutShort | ffxi-actor/src/animation.rs:73-80 | with no pose to face a merge sets out the short way |
| Crossfade.SetsOutThroughFacing | ffxi-actor/src/animation.rs:61-93 | facing a pose a merge goes the other way round exactly when half way the short way it would stand farther from the pose than at both ends and the other way nearer |
| Crossfade.HeldPairNeverChangesSide | ffxi-actor/src/animation.rs:579-600 | throughout a crossfade the pair is the sampled one up to sign and never changes side between two ticks |
| Crossfade.MergeStaysBetween | ffxi-actor/src/animation.rs:624-647 | blended translation and scale lie between the sides', and a bone one side keys is that side's verbatim |
| Crossfade.BlendEnds | ffxi-actor/src/animation.rs:102-119 | a blend is its outgoing side at the start and its incoming side at the end |
| Crossfade.BlendGoesOn | ffxi-actor/src/animation.rs:624-647 | later in a blend no component lies farther from the incoming side |
| Crossfade.AnimationTransition.ShowsEnds | ffxi-actor/src/animation.rs:624-647 | a transition just begun shows the outgoing side and one at its end the incoming side |
| Crossfade.AnimationTransition.FacesBoneByBone | ffxi-actor/src/animation.rs:560-565 | a pose is faced bone by bone, the bind orientation standing in for bones it lacks |
| Crossfade.AnimationTransition.Update | ffxi-actor/src/animation.rs:570-576 | both sides step, the blend runs on, each merged bone takes its pair from the one it held, and is drawn along the pair it took |
| Crossfade.AnimationTransition.DrawnAlongHeld | ffxi-actor/src/animation.rs:624-660 | the pair drawn after a tick is the very pair the tick held, whatever was held before |
| Crossfade.HeldAgain | ffxi-actor/src/animation.rs:95-100 | taking a held pair again on the same two rotations changes nothing |
| Crossfade.AnimationTransition.HoldArcs | ffxi-actor/src/animation.rs:579-600 | exactly the bones both sides key take a new pair |
| Crossfade.AnimationTransition.Snapshot | ffxi-actor/src/animation.rs:454-475 | the still holds for every bone what the blend shows for it |
| Animator.RemainderInRange | ffxi-actor/src/animation.rs:326 | the Euclidean remainder lies in its span |
| Animator.InStepStartInSpan | ffxi-actor/src/animation.rs:313-327 | an in-step start lies in the incoming clip's span |
| Animator.InStepKeepsPhase | ffxi-actor/src/animation.rs:313-327 | but for whole turns, an in-step start is the outgoing key position and the blend's keys scaled from the outgoing span to the incoming one |
| Animator.BlendTimeIs | ffxi-actor/src/animation.rs:724-740 | a blend runs for the request's in time, else the playing clip's positive out time, else seven and a half frames |
| Animator.EntersSteady | ffxi-actor/src/animation.rs:741-751 | however a request enters its slot, its run starts steady, so the playback lemmas hold of it |
| Animator.SettledWithinLength | ffxi-actor/src/animation.rs:791-795 | a settled clip enters within its length |
| Animator.SettledAtFrame | ffxi-actor/src/animation.rs:791-795 | but for whole lengths it enters at the frame asked for |
| Animator.RequestedCases | ffxi-actor/src/animation.rs:704-777 | a request case by case: what replaces, what is dropped, what slot 5 keeps, and what a blend leaves from, goes to and faces |
| Animator.EntersInStep | ffxi-actor/src/animation.rs:741-751 | the request's wish to go in step decides, and without a request's own the playing clip's |
| Animator.StoppedCases | ffxi-actor/src/animation.rs:784-816 | a stop fades from the frozen pose unless there is nothing to fade from, no time, or slot 5 |
| Animator.SkeletonAnimator.Update | ffxi-actor/src/animation.rs:677-690 | clip and blend step by the tick; a blend runs exactly to its time, and when it is dropped every bone samples what the blend's incoming side, equal to the slot's clip, stands on; while it runs out of a still, bones that refuse blends do not move |
| Animator.SkeletonAnimator.BlendFromScreen | ffxi-actor/src/animation.rs:753-774 | a blend leaves from the composite on screen if one was running, from the playing clip if not, into a fresh copy of the entering clip |
| Animator.SkeletonAnimator.SetNextAnimation | ffxi-actor/src/animation.rs:704-777 | replace, drop a repeat, or enter and blend: the whole layer after, for any context and any in time; the blend's incoming side equals the slot's clip if and only if the context had not played yet |
| Animator.SkeletonAnimator.SetSettledAnimation | ffxi-actor/src/animation.rs:784-816 | the whole layer after a stop: the outgoing pose frozen as it stood, the clip entered at the wrapped frame, no blend for no fade or slot 5 |
| Animator.SkeletonAnimator.BlendStaysBetween | ffxi-actor/src/animation.rs:833-843 | in every reachable blend a bone is drawn between its two sides |
| Animator.SkeletonAnimator.RefusedKeepsOutgoing | ffxi-actor/src/animation.rs:820-845 | a bone that refuses blends shows the outgoing side's own record for as long as a blend runs |
| Coordinator.FirstSlotIsOverwriteWalk | ffxi-actor/src/animation.rs:982-1016 | owning by first slot is the descending overwrite walk it stands for |
| Coordinator.OwnerIsFirst | ffxi-actor/src/animation.rs:1008-1015 | the owner samples the bone and no earlier slot does; none means no slot does |
| Coordinator.FirstSlotUnder | ffxi-actor/src/animation.rs:1021-1040 | the first slot after one is the first slot with that one and all before it removed |
| Coordinator.SkeletonAnimationCoordinator.UnderIsWithout | ffxi-actor/src/animation.rs:1021-1040 | so sampling under a slot is sampling with slots up to it removed |
| Coordinator.SkeletonAnimationCoordinator.OwnerlessWhen | ffxi-actor/src/animation.rs:1002-1017 | a bone has no owner exactly when it is blocked or no slot keys it |
| Coordinator.SkeletonAnimationCoordinator.MaskReads | ffxi-actor/src/animation.rs:129-160 | without a category in a mask's low six bits nothing writes the bone, with its top bit clear the bone refuses blends, and an absent mask reads 129 |
| Coordinator.BonePoseScratch.SetBoneCount | ffxi-actor/src/animation.rs:195-202 | another bone count drops every carried record |
| Coordinator.BonePoseScratch.BeginFrame | ffxi-actor/src/animation.rs:211-214 | a frame starts from nothing at the given size |
| Coordinator.BonePoseScratch.Write | ffxi-actor/src/animation.rs:239-246 | one bone's record and writer are set, the empty case included, and no other's |
| Coordinator.SlotByDigit | ffxi-actor/src/animation.rs:918-921 | of eight slots the last digit of a clip's name picks one, the highest digits sharing the last |
| Coordinator.SkeletonAnimationCoordinator.SetBoneCount | ffxi-actor/src/animation.rs:875-881 | resizing keeps every mask within the count |
| Coordinator.SkeletonAnimationCoordinator.SamplePose | ffxi-actor/src/animation.rs:1046-1053 | every record and writer is what the ownership law gives, and nothing depends on what the scratch held |
| Coordinator.HoldsItsSlot | ffxi-actor/src/animation.rs:1102-1131 | without the demand only a clip still counting its loops and not eager to leave holds its slot |
| Coordinator.DemandRefusesNegative | ffxi-actor/src/animation.rs:1102-1131 | demanding an out time refuses exactly a slot whose clip has a negative one |
| Coordinator.DemandPassesWithout | ffxi-actor/src/animation.rs:1102-1131 | a looping clip without transition parameters passes the demand for an out time |
| Coordinator.SkeletonAnimationCoordinator.Update | ffxi-actor/src/animation.rs:904-908 | every slot's clip and blend step by the tick, a blend whose time is up is dropped, and every slot stays valid and apart |
| Coordinator.SkeletonAnimationCoordinator.RegisterAnimation | ffxi-actor/src/animation.rs:912-931 | let in exactly when the slot's layer meets the condition, then the layer, blend and all, is what the request makes of it; otherwise it and what it writes are as before, and so is every other slot |
| Coordinator.SkeletonAnimationCoordinator.RegisterIdleAnimationMatched | ffxi-actor/src/animation.rs:962-981 | installed exactly when the slot is ready, with the frozen fade into the matched frame; otherwise nothing changes, nor does any other slot |
| Coordinator.IdleIsNotRestarted | ffxi-actor/src/animation.rs:962-981 | an idle clip installed by a stop loops without end, and any timed request for the same clip leaves the layer as it is |
| Coordinator.SkeletonAnimationCoordinator.ClearSlot | ffxi-actor/src/animation.rs:1081-1085 | the slot plays nothing, the others play on |
| ActorState.SideStepFlipLatch.Advance | ffxi-actor/src/actor_state.rs:437-455 | one frame is the latch function of the old state |
| ActorState.NeverFlips | ffxi-actor/src/actor_state.rs:407-416 | in every run no two frames in a row go from one side step to the other |
| ActorState.PassesThroughWhen | ffxi-actor/src/actor_state.rs:407-416 | with nothing owed a run passes through untouched if and only if it has no direct flip |
| ActorState.PaysOff | ffxi-actor/src/actor_state.rs:446-453 | owed straight gait is paid by moving time alone and never added to from inside |
| ActorState.FlipForcesStraight | ffxi-actor/src/actor_state.rs:405-455 | a flip forces straight gait for exactly the shortest run of moving frames whose rendered time reaches two |
| ActorState.RoutineOfSub | ffxi-actor/src/actor_state.rs:37-66 | which literal routine each sub names by its last two bits |
| ActorState.NextPoseCases | ffxi-actor/src/actor_state.rs:134-159 | what a frame triggers for a hidden actor (status 3), a resurfacing one, and a changed sub |
| ActorState.InitPerResurfacing | ffxi-actor/src/actor_state.rs:134-159 | load routine triggers equal hidden-to-visible edges |
| ActorState.ActiveIsLastTriggered | ffxi-actor/src/actor_state.rs:82-88 | the active routine is the one last triggered, and hidden frames trigger nothing |
| ActorState.SlotHeldWhen | ffxi-actor/src/actor_state.rs:89-94 | a visible actor's slot is held if and only if a sub change while visible set it and nothing undid it; the active routine is then the sub's |
| ActorState.CollapseClock | ffxi-actor/src/actor_state.rs:521-556 | what remains of a collapse is its length less the time since, while positive; after that the body lies |
| ActorState.CorpseStays | ffxi-actor/src/actor_state.rs:532-555 | a corpse stays one while dead, and a body first seen dead never collapses |
| ActorState.OneCollapsePerDeath | ffxi-actor/src/actor_state.rs:521-556 | collapses begun equal deaths seen to happen with a collapse to show |
| Marker.StripIsSlice | scripts/beads-github-publish.py:164-171 | stripping takes a stretch out of the middle and is idempotent |
| Marker.SpaceByCode | scripts/beads-github-publish.py:164-171 | what stripping takes off is white space by its code points |
| Marker.MarkerReadsBack | scripts/beads-github-publish.py:164-171 | a marker at the end of any body reads back as its id if and only if the id is clean |
| Marker.ReadsBackClean | scripts/beads-github-publish.py:164-171 | whatever any body reads back is clean, so an unclean id never finds an issue |
| Publisher.WantedAreManaged | scripts/beads-github-publish.py:79-100 | every label a bead wants is in the managed namespace |
| Publisher.BodyEndsInMarker | scripts/beads-github-publish.py:103-118 | whatever the bead says its body ends in its marker |
| Publisher.BodyReads | scripts/beads-github-publish.py:103-118 | every body opens with the bead's description or the stand-in for none, goes on with its acceptance criteria under their heading if it has any, and closes with the footer naming the bead and its marker |
| Published.WantedLabel | scripts/beads-github-publish.py:83-100 | by name, exactly which labels a bead asks for |
| Published.ManagedLabel | scripts/beads-github-publish.py:79-80 | by name, exactly which labels a run may take away |
| Published.ImportedIff | scripts/beads-github-publish.py:255-268 | a reference names an issue if and only if it is gh- and that number without leading zeros |
| Published.ListsAThousand | scripts/beads-github-publish.py:192-198 | a listing is the newest thousand issues |
| Publisher.ProjectedIdReadsBack | scripts/beads-github-publish.py:103-171 | a projected body reads back as the bead's id if and only if the id is clean |
| Publisher.FetchIssues | scripts/beads-github-publish.py:190-209 | looking an id up finds the last listed issue whose marker is the id |
| Publisher.ChangedSettles | scripts/beads-github-publish.py:343-373 | reconciling leaves title, body, managed labels and state as the bead asks |
| Publisher.ChangedLabels | scripts/beads-github-publish.py:347-361 | unmanaged labels survive and managed ones end equal to the wanted set |
| Publisher.ReconcileIssue | scripts/beads-github-publish.py:343-375 | the edit, close and reopen calls together make that change and count themselves |
| Publisher.Run | scripts/beads-github-publish.py:296-375 | the loop is the fold over the beads, aborts included |
| Published.RunWrites | scripts/beads-github-publish.py:296-375 | at any point of any run, each issue it added has the title, text and labels of a bead that had none, a body that changed reads as the bead's whose issue it is, and a run that ended left such an issue, open or closed as the bead is, for every bead to be published that had none |
| Publishing.EveryRunKeeps | scripts/beads-github-publish.py:296-375 | every run, aborted or not, keeps all issues in place, protected ones unchanged and the others' unmanaged labels |
| Publishing.ImportsUntouched | scripts/beads-github-publish.py:262-350 | no run touches an issue a bead was imported from |
| Publishing.TurnInWindow | scripts/beads-github-publish.py:297-375 | a bead's turn settles its issue wherever it is listed, and no other bead is looked up differently |
| Publishing.RunSettles | scripts/beads-github-publish.py:296-375 | a run whose published ids are clean leaves every bead settled, protected or rightly skipped, however many issues there were |
| Publishing.UncleanCreates | scripts/beads-github-publish.py:309-341 | a published unclean id creates an issue in every run |
| Publishing.SilentIffQuiet | scripts/beads-github-publish.py:296-375 | a run makes no remote call if and only if every bead is quiet in what it lists |
| Publishing.SecondPublishSilentIff | scripts/beads-github-publish.py:25-29 | a second run creates, edits, closes and reopens nothing if and only if every published id is clean and no issue it needs is pushed out of the thousand listed; for any number of issues |
| Publishing.SecondPublishSilentWhen | scripts/beads-github-publish.py:25-29 | when the first run leaves no more issues than one listing, clean ids alone decide it |
| Publishing.PastListingCreates | scripts/beads-github-publish.py:192-198 | published alone, a bead whose issue is past the listing gets exactly one more |

## Left out

- Floating point: rounding, NaN and infinities, and clips of no length; angles are modelled by their cosine and sine.
- Clip loading and key interpolation: a clip is its length, key rate, keyed joints and records by playhead.
- Pose.PoseWorldMountedInto: the arithmetic of one joint (`update_joint`, the mount and override transforms) is a parameter, and so is the matrix it becomes.
- Crossfade.AnimationTransition.Snapshot: poses composed from several clips (`AnimationSnapshot::of_layers`) are not modelled; a named facing pose is any map of records.
- Coordinator.SkeletonAnimationCoordinator.RegisterAnimation: the override condition sees the slot's clip and blend by value, not the pairs its merged bones hold.
- Publishing.SecondPublishSilentIff: assumes distinct bead ids and distinct issue numbers, as beads and GitHub give them.
- LookOrder.ApplyLookBends: finding the neck's place on a pose (`attach_frame`) is a parameter.
- The idle registrations that only pass a condition to it, whole clears, mask setters, and the read-only queries over slots.
- Audio.DecodeBytes: the sample rate is the integer before its conversion to a float, and reading the file is left out.
- Container errors above the walker, file names of chunks, and the machine width of offsets.
- Failing remote calls; every `gh` call the publisher makes is taken to succeed.
- The publisher's command line, dry runs, pruning of unmarked issues, label creation, bead selection, and how GitHub normalises text; issue numbers are only fresh, not consecutive with pull requests.
- Clip-name selection, velocity buckets and rest poses of the actor state: readings of single branches.

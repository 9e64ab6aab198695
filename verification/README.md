# A model of the QuakeWorld server's protocols, tracing and stream algorithms

This project models the parts of the server in which a protocol, a walk through a spatial tree or a
transformation of a byte stream gives a guarantee that no single function shows, and proves those guarantees for
all inputs, all states that can be reached, or all runs. `dafny verify dfyconfig.toml` checks it.

Every part has two layers. The first is a value-level description: what one step makes of the state, and what the
step is for. The second is the step as the source runs it: a class whose methods update fields, arrays and linked
nodes in place, each proved to compute what the first layer says. The theorems are about the first layer; the
methods' contracts carry them to the second.

A description is itself held to something that does not come from it: the bytes of a packet to the layout of the
protocol, a translated command to what a client reads in it, a point of impact to its distance from the plane, a
slide to the trace that it begins with, a called function to the arguments it was given.

| files | what they model |
|---|---|
| `Bytes`, `Options`, `SizeBuffer` | little-endian integers, and `sizebuf_t` with its overflow rule |
| `NetChannel`, `ReliableDelivery` | one `netchan_t`, and two of them joined by a network that loses, duplicates and reorders |
| `Geometry`, `Hulls`, `BoxHull` | planes, clip hulls, the recursive trace and the hull made from a bounding box |
| `Collision`, `Slides`, `PlayerMove` | tracing the player through the world and its entities, sliding and stepping along what it meets, and the whole move |
| `Visibility`, `VisibleSets` | leafs touched by a box, the fat PVS, the potentially hearable sets |
| `Entities`, `Snapshots` | which entities go into a client's packet |
| `EntityHeaders`, `DeltaEntities`, `EntityRecords`, `DeltaSync`, `EntityWriter`, `SnapshotRuns` | delta-coded packets, a decoder for them, and runs of packets |
| `NqTranslator` | NetQuake messages translated to QuakeWorld ones a few bytes at a time |
| `MvdFrames` | the frame buffer of a multi-view demo |
| `Md4` | the streaming MD4 digest of RFC 1320 |
| `Wildcards` | the two wildcard matchers |
| `CallFrames` | calls and returns of the QuakeC interpreter |
| `InfoStore`, `InfoStrings`, `InfoLists` | the info store: its meaning, its string form, and the doubly linked nodes |

The network is the set of all packets ever sent, of which any may be delivered at any time and any number of
times. The decoder of entity packets is not in the server; it is written here from the flag layout in
`src/protocol.h:312-374`.

## What the proofs brought out

- **The reliable channel is safe because the sender waits.** The receiver toggles its bit on every reliable packet
  that it accepts, so a second copy would be delivered again. It never is: a resend needs an acknowledgement of a
  later packet, and by then every older copy is behind the receiver's sequence number.
- The very first packet, sequence 0, is always discarded by the receiver. A message that is lost needs three round
  trips, not two, because the threshold for resending is stored after the sequence number was increased. Two trips
  deliver an outstanding message exactly if the far end has sent a packet before and this end has sent one after the
  last reliable one (`TwoTripsDeliverExactlyWhen`); from a channel whose first packet was lost they do not
  (`TwoTripsCanFail`).
- `Netchan_Transmit` can end in `Sys_Error` on a client, whose reliable part may leave no room for the qport
  (`ClientCanOverrunTheSendBuffer` reaches such a state); on a server it cannot.
- A trace can stop short although the oracle finds nothing solid on the way: a segment that grazes an edge meets a
  solid leaf in a single point that the oracle gives to the other side (`GrazingStopsShort`). From an open start the
  segment is crossed whole exactly if none of the pieces into which the planes cut it, single points included,
  falls into a solid leaf (`CrossedWholeExactlyWhen`). Segments with a solid point have such a piece, and segments
  that do not touch solid have none.
- `SV_WriteDelta` keeps the old state when there is no room, which is right for an entity that the client has. For
  one that it lacks the server then believes that the client has the baseline (`LeftOutEntityIsTakenAsKnown`), and
  for one that needs a refused extension that it has the new state (`RefusedEntityIsTakenAsKnown`). Server and client
  stay in step exactly when neither happens (`DeltaReconstructs`), and over a run only the packets that a frame rests
  on matter (`SnapshotsStayInStep`).
- A removal of an entity above 511 writes its number unmasked over two flag bits, so a decoder must look at
  `U_REMOVE` before those flags. An unchanged entity above 511 still costs a record of four bytes
  (`UnchangedEntityCosts`).
- The comment of `Q_glob_match` promises that characters match exactly, but the code compares without case ("a" matches
  "A") and never matches an upper case literal directly after a star ("*A" does not match "A"). It does what the
  comment says on every text exactly for the patterns in which no letter stands for itself
  (`GlobMatchIsRightExactlyWhen`), and ignores case consistently exactly for those in which no upper case literal
  follows a star (`GlobMatchFoldsExactlyWhen`).
- `fatbytes` in `CM_FatPVS` exceeds the bytes of a row exactly if the number of leafs is a multiple of 32 or at least 9
  above one (`FatBytesExceedExactlyWhen`); the model uses the row.
- The 32-bit loop index of `MD4Update` wraps around exactly for inputs whose last whole block ends within 63 bytes
  of 2^32 or later (`WrapsExactlyWhen`); for all others the digest is right.
- In `PM_NudgePosition` the truncation to eighths is overwritten before it is used.
- Converting an info store to a string and back reverses the order of the list.

## Model

| member | source | states |
|---|---|---|
| SizeBuffer.SizeBuf.constructor | src/common.c:527-538 | a buffer starts empty with its capacity and its overflow rule |
| SizeBuffer.SizeBuf.Clear | src/common.c:540-544 | clearing empties the buffer and forgets the overflow |
| SizeBuffer.SizeBuf.GetSpace | src/common.c:546-571 | where the space is, when the buffer is dropped and marked, and exactly when the request is fatal |
| SizeBuffer.SizeBuf.Write | src/common.c:573-576 | an append fails, appends, or drops what was there and remembers it, as the value-level append says |
| SizeBuffer.WrittenEndsWithBytes | src/common.c:546-576 | after an append the bytes are at the end, and what was there is before them whole or, once overflowed, not at all |
| Bytes.LongOfLe32 | src/common.c:157-166 | reading the four bytes that were written for a 32-bit value gives the value |
| Bytes.Le32OfLong | src/common.c:340-356 | writing the value read from four bytes gives the bytes |
| Bytes.Le16IsLittleEndian | src/common.c:143-155 | the two bytes stand for the number, the less significant first |
| Bytes.Le32IsLittleEndian | src/common.c:157-166 | so do the four |
| NetChannel.NetChan.constructor | src/net_chan.c:168-190 | a channel starts at sequence 0 with both bits clear and a message buffer as near to what the mtu leaves as its bounds allow |
| NetChannel.NetChan.StageReliable | src/net_chan.c:255-270 | the bit decides whether the reliable part is sent, and a pending message is loaded only into an empty reliable buffer |
| NetChannel.WritePacket | src/net_chan.c:272-296 | header, then reliable part, then the unreliable part if all of it fits; fails exactly when header and reliable part do not fit |
| NetChannel.NetChan.Transmit | src/net_chan.c:233-335 | the new channel state and packet are those of the value-level transmission, with its refusal and its fatal case; the far end reads in the packet the reliable bytes that are due and after them the whole datagram, unless there is no room for it |
| NetChannel.NetChan.Process | src/net_chan.c:343-450 | a packet is accepted exactly when its sequence is new, and the state follows the value-level step in both cases |
| NetChannel.HeaderRoundTrip | src/net_chan.c:272-286 | the far end reads from a packet exactly the sequences, bits and body that were sent |
| NetChannel.PacketLayout | src/net_chan.c:255-300 | the words of a packet, little-endian, then the reliable bytes due, then the datagram exactly if all fits |
| NetChannel.OnlyClientsOverrunTheSendBuffer | src/net_chan.c:272-293 | a transmission is fatal if and only if a client's reliable part leaves no room for its qport |
| ReliableDelivery.ResendIsSafe | src/net_chan.c:258-259 | when a resend is due, the message is undelivered and every reliable copy in the network is too old to be accepted |
| ReliableDelivery.LoadIsSafe | src/net_chan.c:261-270 | a new message is loaded only after the last was delivered, with every old reliable copy dead |
| ReliableDelivery.StepKeepsInv | src/net_chan.c:233-450 | submitting, transmitting and delivering any packet at either end keep the protocol's invariant |
| ReliableDelivery.RunKeepsInv | src/net_chan.c:233-450 | so does every run |
| ReliableDelivery.EveryRunDeliversExactlyOnce | src/net_chan.c:425-435 | in every reachable state, both ways, the messages delivered are a prefix of those sent, at most one behind, and all of them when nothing is outstanding |
| ReliableDelivery.AcceptedIsTheNextMessage | src/net_chan.c:425-435 | a reliable packet that is accepted carries the one undelivered message |
| ReliableDelivery.AcceptedBodyIsExact | src/net_chan.c:288-300 | in every run, any packet that is accepted reads as the missing message, if it is a reliable one, and then the whole datagram sent along, unless there was no room for it |
| ReliableDelivery.SentAlong | src/net_chan.c:233-335 | that datagram is the one given to the transmission |
| ReliableDelivery.ResendsOnlyWhenOldCopiesAreDead | src/net_chan.c:255-259 | in every reachable state in which a resend is due, no reliable packet in the network would be accepted |
| ReliableDelivery.ThreeTripsDeliver | src/net_chan.c:258-293 | three round trips without loss deliver and acknowledge an outstanding message of either end, from any reachable state |
| ReliableDelivery.TwoTripsDeliverExactlyWhen | src/net_chan.c:258-293 | from any reachable state, two round trips without loss deliver the outstanding message of either end if and only if the far end has sent a packet before and this end one after its last reliable packet |
| ReliableDelivery.TwoTripsCanFail | src/net_chan.c:386-398 | the failing case: a message that went out in the very first packet |
| ReliableDelivery.ClientCanOverrunTheSendBuffer | src/net_chan.c:272-293 | a reachable state in which a client's transmission ends in Sys_Error |
| ReliableDelivery.LostMessageNeedsThreeTrips | src/net_chan.c:290-293 | two do not, for either end, if the message was lost just before them |
| Geometry.PlaneDiffAlong | src/cmodel.c:190-206 | the distance to a plane is affine along a segment |
| Hulls.HullPointContents | src/cmodel.c:136-158 | the loop returns the contents of the leaf that the point falls into |
| Hulls.CrossingSplits | src/cmodel.c:218-290 | the computed crossing lies in the segment and on the plane, and the pulled-back point before it |
| Hulls.WalkSound | src/cmodel.c:180-295 | what the recursion returns for any part of the segment agrees with the oracle on that part |
| Hulls.TraceIsSound | src/cmodel.c:298-325 | startsolid exactly if the oracle finds the start solid; otherwise the end point is at the fraction, every point up to it is free, and a trace that stops does so in front of a plane on which the segment first comes to solid, at a distance of exactly DIST_EPSILON, or that of the beginning of its last piece if that is nearer |
| Hulls.PulledBackFraction | src/cmodel.c:282-292 | the point of impact is no later than the crossing and exactly DIST_EPSILON in front of the plane, or at the beginning of the piece if that is nearer |
| Hulls.WalkComesThrough | src/cmodel.c:180-295 | a walk that begins in the open comes through exactly if no piece of the segment falls into a solid leaf |
| Hulls.MeetsSolidIsBetween | src/cmodel.c:136-158 | a solid point lies on such a piece, and such a piece has a point in solid or on its boundary |
| Hulls.CrossedWholeExactlyWhen | src/cmodel.c:298-325 | from a start that is not solid the fraction is 1 if and only if there is no such piece |
| Hulls.ClearOfSolid | src/cmodel.c:298-325 | a segment that does not touch solid, boundary included, is crossed whole |
| Hulls.SolidStops | src/cmodel.c:298-325 | a solid point on the segment stops the trace before it |
| Hulls.GrazingStopsShort | src/cmodel.c:218-290 | a concrete hull and segment free by the oracle on which the trace nevertheless stops |
| Hulls.WalkMarks | src/cmodel.c:180-295 | a walk that begins in the open notes every open and every liquid place that it comes through |
| Hulls.WalkFlagsMean | src/cmodel.c:180-216 | and notes only what some point of the segment is in or borders on |
| Hulls.TraceFlags | src/cmodel.c:298-325 | so the flags of a trace say what it passed through; allsolid exactly if that was nothing; and even from solid a trace that stops does so in front of a plane |
| Hulls.HullTraceLocal.RecursiveHullTrace | src/cmodel.c:180-295 | the loop, recursion and mutated trace compute the value-level walk |
| Hulls.HullTrace | src/cmodel.c:298-325 | the trace of the method is the value-level one and is sound, with its exact distance from the plane it stops at |
| BoxHull.BoxStorage.constructor | src/cmodel.c:99-118 | the shared box hull is set up as six nodes in a row |
| BoxHull.BoxStorage.HullForBox | src/cmodel.c:124-134 | setting the six distances in place gives the hull of that box |
| BoxHull.BoxIsSolidInside | src/cmodel.c:99-134 | it is acyclic, and solid exactly for mins <= p < maxs on every axis |
| Collision.TestPlayerPosition | src/pmovetst.c:108-134 | true exactly if no entity's hull is solid at the position |
| Collision.StuckMeans | src/pmovetst.c:114-130 | in an entity that is a box the player is stuck exactly if their boxes overlap |
| Collision.CulledIsClear | src/pmovetst.c:33-54 | an entity that is culled is not touched by any point of the segment |
| Collision.PlayerTrace | src/pmovetst.c:145-213 | the running best trace is the value-level one, culling included |
| Collision.CullingChangesNothing | src/pmovetst.c:145-213 | the trace with culling is the trace without it |
| Collision.PlayerTraceIsSafe | src/pmovetst.c:145-213 | from a free start every point up to the end point is free; from a solid one the fraction is 0 |
| Collision.PlayerTraceStopsAtSolid | src/pmovetst.c:145-213 | a point in solid on the way stops the trace before it |
| Collision.PlayerTraceStopsAtNearest | src/pmovetst.c:145-213 | the entity reported is the first of those that stop the player soonest, and the player is left in front of a plane of its hull |
| Slides.ClippedIsAlongPlane | src/pmove.c:70-83 | a clipped velocity is the part along the plane, but for components that are almost nothing |
| Slides.CreaseIsAlongBoth | src/pmove.c:163-170 | the crease of two planes lies in both |
| Slides.TurnedLeavesPlanes | src/pmove.c:144-171 | the velocity turned goes into none of the planes but perhaps the one it is clipped to |
| Slides.SlideIsWholeExactlyWhen | src/pmove.c:87-186 | a slide is not blocked if and only if its first trace is whole, and then it ends at the end of the way, as fast as before |
| Slides.AfterBump | src/pmove.c:102-178 | after a first bump the player is at the end of that trace, as far as the velocity leads in the time it took, and goes on from there along the plane for the time left, or stops |
| Slides.SlideBegins | src/pmove.c:87-186 | so every slide that is blocked begins, unless it is trapped, which leaves it in place |
| Slides.SlideGoesForward | src/pmove.c:173-183 | a slide ends at rest, as fast as before, or at a velocity that leads forward |
| Slides.StepLeadsAsFar | src/pmove.c:189-295 | with steps, too, the way is gone whole exactly if it is open; trying a step never leads less far, nor down |
| Slides.StepIsTakenExactlyWhen | src/pmove.c:189-295 | a blocked player goes over the step if and only if, raised, slid and put down, it does not end over a slope or lower, and gets farther |
| Slides.AirStepIsFromTheGround | src/pmove.c:207-227 | in the air the player is never raised more than the step size above where it would stand |
| PlayerMove.Mover.AddTouchedEnt | src/pmove.c:52-65 | touched entities are listed once, up to the limit |
| PlayerMove.AlongPlanes | src/pmove.c:143-171 | the velocity clipped to the first plane that leaves all others, along the crease of two, or none |
| PlayerMove.TracedIsKept | src/pmovetst.c:145-213 | moving to the end of a trace that did not start solid keeps the player on a free path |
| PlayerMove.Mover.SlideMove | src/pmove.c:87-180 | position, velocity, flags and contacts are those of the slide; it goes the whole way if and only if that is open, and only along free paths |
| PlayerMove.Mover.AirStepSize | src/pmove.c:207-227 | a step in the air is tried only after a step was met, and is above 0 and at most the step size |
| PlayerMove.Mover.StepSlideMove | src/pmove.c:189-295 | position, velocity, flags and contacts are those of the slide with steps, which is tried unless the plain one was whole, and kept exactly if it leads farther and not down; only along free paths |
| PlayerMove.Mover.FindWater | src/pmove.c:586-605 | the water level is how many of feet, middle and eyes are under water, with the liquid at the feet |
| PlayerMove.Mover.CategorizePosition | src/pmove.c:553-615 | when the player is on the ground, and exactly where snapping to it moves the origin |
| PlayerMove.Mover.NudgePosition | src/pmove.c:716-749 | a free position stays; otherwise the first of the listed offsets that is free is taken, and if none is free the origin stays |
| PlayerMove.Mover.AirMove | src/pmove.c:484-551 | on the ground and in the air the right slide is made, a player without speed along the ground stays, and landing is noticed |
| PlayerMove.DrivenWhole | src/pmove.c:876-881 | in water, flying, on the ground or in the air: the player goes all of the way exactly if it is open, or stands idle |
| PlayerMove.SnappedRests | src/pmove.c:553-615 | snapping leads straight down, at most a unit, to just in front of the plane of what is stood on |
| PlayerMove.Mover.PlayerMove | src/pmove.c:821-897 | the player is nudged to the first free place, placed on the ground, slides from there, the whole way if and only if it is open, and is placed again; so the new origin is linked to the old one by free segments; spectators and the immobile end where they should |
| PlayerMove.KeptTwice | src/pmove.c:821-897 | moves along free paths compose |
| PlayerMove.MovedStaysFree | src/pmove.c:821-897 | a player not in solid is not in solid after a move, and one in solid either stays or becomes free |
| Visibility.PointInLeaf | src/cmodel.c:354-376 | the descent returns the leaf on whose side of every plane the point lies |
| Visibility.BoxOnPlaneSideIsExact | src/mathlib.c:139-237 | the eight sign cases answer exactly whether some point of the box is in front, and whether some is behind |
| Visibility.TouchedIsComplete | src/cmodel.c:480-525 | the non-solid leaf of every point strictly inside the box is among the touched ones |
| Visibility.BoxSidesMeans | src/mathlib.c:139-237 | with the shortcut for axial planes, too, the answer is exact but for boxes that only touch a plane from behind |
| Visibility.TouchedExactly | src/cmodel.c:480-525 | no leaf is touched but those to which the box reaches through every plane, and all of these are |
| Visibility.LeafList.FindTouchedLeafs_r | src/cmodel.c:480-525 | the recursion lists the touched leafs in order up to the limit, and notes the overflow and the first node that the box straddles |
| Visibility.TopNodeHoldsAll | src/cmodel.c:514-517 | all touched leafs are below the top node, and without one there is at most one |
| Visibility.FindTouchedLeafs | src/cmodel.c:527-547 | -1 exactly if there are too many; otherwise the list is complete for points strictly inside; the first node that the box straddles is reported |
| VisibleSets.VisMap.AddToFatPVS_r | src/cmodel.c:417-450 | the recursion adds exactly the bits of the rows it gathers |
| VisibleSets.VisMap.FatPVS | src/cmodel.c:459-467 | the set starts empty and holds exactly what is gathered from the root |
| VisibleSets.FatBytesExceedExactlyWhen | src/cmodel.c:463 | when the cleared and gathered bytes are more than a row has |
| VisibleSets.VisMap.GathersNeighbours | src/cmodel.c:417-467 | with unit normals, what is visible from the leaf of any point within 8 units is gathered |
| VisibleSets.VisMap.GathersExactly | src/cmodel.c:417-467 | and nothing else is: a row is gathered if and only if every plane on the way to its leaf has a point within 8 units on that side |
| VisibleSets.MaskIsShift | src/cmodel.c:1108-1112 | the bits of a row count from the least significant |
| VisibleSets.VisMap.RowOfLeaf | src/cmodel.c:378-384 | leaf 0 sees everything and leaf n what row n - 1 says |
| VisibleSets.CauchySchwarz | src/cmodel.c:417-450 | the distance to a plane changes by no more than the distance moved |
| VisibleSets.VisMap.OrRow | src/cmodel.c:1112-1118 | one row is united into another and no other row changes |
| VisibleSets.VisMap.OrByte | src/cmodel.c:1104-1119 | one byte of a row is worked off, and only that row changes |
| VisibleSets.VisMap.BuildRow | src/cmodel.c:1096-1120 | a row becomes the union of its own and those of all leafs in it, below the number of leafs |
| VisibleSets.VisMap.BuildPHS | src/cmodel.c:1082-1121 | a leaf is hearable exactly if it is visible or visible from a visible leaf, whatever is in the padding; no map above the size limit |
| Snapshots.CloseGap | src/sv_ents.c:902-906 | the elements after the gap move down by one |
| Snapshots.Furthest | src/sv_ents.c:888-896 | the first of the greatest distances and its index |
| Snapshots.DistanceIsToTheMiddle | src/sv_ents.c:899-901 | distances are measured to the middle of an entity's bounds |
| Snapshots.EvictionKeepsNearest | src/sv_ents.c:886-910 | replacing the furthest entity by a nearer one keeps the packet sorted and the nearest |
| Snapshots.Consider | src/sv_ents.c:880-938 | one more eligible entity keeps the packet the selection of those looked at |
| Snapshots.SelectEntities | src/sv_ents.c:861-941 | the packet holds as many eligible entities as fit, in entity order, none left out being nearer than one kept; without an edict, the first ones |
| EntityHeaders.BitsRoundTrip | src/protocol.h:312-337 | flags packed into a number are read back |
| EntityHeaders.HeaderRoundTrip | src/sv_ents.c:160-232 | number, flags and extension bits of every header are read back, and none is taken for the end |
| EntityHeaders.RemovalRoundTrip | src/sv_ents.c:359-381 | every removal is read back as the removal of its entity |
| EntityHeaders.HeaderLayout | src/protocol.h:312-360 | every flag of a header has the weight that the protocol gives it |
| EntityHeaders.RemovalLayout | src/sv_ents.c:359-381 | the bytes of a removal, with the whole number unmasked |
| DeltaEntities.UnpackedOfPacked | src/sv_ents.c:234-285 | reading the written fields gives the new values, and the old ones where nothing was written |
| DeltaEntities.RecordRoundTrip | src/sv_ents.c:120-286 | whatever changed, a record read on top of the old state gives the new state as encoded |
| EntityRecords.RecordLayout | src/sv_ents.c:229-285 | a record is its header and then, of the fields that changed, their low bytes, coordinates and angles in the order of the protocol |
| DeltaSync.WrittenExactlyIfGranted | src/sv_ents.c:150-232 | with room and something to say, a record is written if and only if the client was granted every extension that it uses |
| DeltaEntities.QuantisedShows | src/sv_ents.c:243-285 | what a client knows shows each value that fits its bytes, a model of nine bits included |
| DeltaEntities.DeltaDecodes | src/sv_ents.c:120-286 | with or without a record, for want of room, extension or difference, the client's copy is that of the state it has been told |
| DeltaSync.RecordFits | src/sv_ents.c:168-172 | a record never exceeds the 40 bytes that are checked for |
| DeltaEntities.FirstHeader | src/sv_ents.c:296-386 | every header names an entity of one of the frames, so what precedes it stays as it was |
| DeltaEntities.DecodesToTold | src/sv_ents.c:296-386 | for all sorted frames, any room and any extensions, decoding gives exactly the frame the client has been told of and consumes exactly the message |
| DeltaSync.InStepExactlyWhenKeptUp | src/sv_ents.c:168-227 | what the server keeps is to the client what it was told if and only if no entity new to it lacked room and no refused extension was needed for a change |
| DeltaSync.LeftOutEntityIsTakenAsKnown | src/sv_ents.c:168-172 | the failing case: the server keeps a baseline that the client does not have |
| DeltaSync.RefusedEntityIsTakenAsKnown | src/sv_ents.c:187-225 | the other failing case: the server keeps an entity above 511 that the client was never told of |
| DeltaSync.UnchangedEntityCosts | src/sv_ents.c:170-240 | an unchanged entity is written in 4 bytes above 511, in 3 if it is solid, and not at all otherwise or when refused |
| DeltaSync.AllFitTellsAll | src/sv_ents.c:168-172 | if the test for room succeeds at every entity, the client is told of the whole new frame and the server keeps it |
| DeltaSync.AmpleRoomFitsAll | src/sv_ents.c:168-172 | 40 bytes for each new entity and 4 for each old one are enough for that |
| DeltaSync.DeltaReconstructs | src/sv_ents.c:296-386 | decoding gives the quantised frame that the server keeps exactly when the client keeps up, and the new frame when every test for room succeeds; it shows models, frames, colors, skins and effects exactly where they fit their bytes |
| SnapshotRuns.KeptIsSorted | src/sv_ents.c:296-322 | the frames the server keeps are sorted and can serve as the basis of later ones |
| SnapshotRuns.SnapshotsStayInStep | src/sv_ents.c:296-386 | over every chain of deltas whose packets keep up, whatever became of all other packets, the client's frame is the quantised frame of the server |
| SnapshotRuns.InStepExactlyWhenKeptUp | src/sv_ents.c:296-386 | a snapshot that rests on such a chain is in step if and only if it keeps up itself |
| EntityWriter.PackedSnoc | src/sv_ents.c:234-285 | the fields written so far and the next one are the fields up to it |
| EntityWriter.WriteDelta | src/sv_ents.c:120-286 | the bytes appended, field by field, and the entity kept in place, in each of the cases |
| EntityWriter.AppendRemoval | src/sv_ents.c:359-381 | the bytes of a removal, appended or overflowing |
| EntityWriter.PassStaysOnCourse | src/sv_ents.c:327-383 | what a pass has written and what remains make up the whole emission |
| EntityWriter.EmitPass | src/sv_ents.c:327-383 | each of the three cases of the merge stays on course |
| EntityWriter.EmitPacketEntities | src/sv_ents.c:296-386 | the message is opening, emission and zero word and the frame is the one kept, exactly if that fits; otherwise the overflow shows; and a client that keeps up reads that frame in it |
| NqTranslator.StepGrows | src/pr_cmds.c:1785-1953 | a translation step that is possible is the same after more bytes arrive |
| NqTranslator.FedTwice | src/pr_cmds.c:1785-1953 | feeding two pieces is feeding them joined |
| NqTranslator.IncrementalEqualsBatch | src/pr_cmds.c:1785-1953 | feeding any pieces is feeding their concatenation at once |
| NqTranslator.SplittingMakesNoDifference | src/pr_cmds.c:1785-1953 | the output depends on the bytes and not on how the game's writes split them |
| NqTranslator.ResidueIsIncomplete | src/pr_cmds.c:1785-1953 | what is left in the buffer is nothing, or a proper beginning of one supported command, or fewer bytes than are owed |
| NqTranslator.CommandIsTranslated | src/pr_cmds.c:1785-1953 | every supported command becomes its QuakeWorld form and leaves the rest alone |
| NqTranslator.ColorsAreRead | src/pr_cmds.c:1833-1845 | a client reads both colors of the player, from the lower and the upper half of the byte, each at most 13 |
| NqTranslator.NameIsRead | src/pr_cmds.c:1846-1867 | a client reads the name, and a ping and an enter time of zero |
| NqTranslator.BeamNumberIsRead | src/pr_cmds.c:1924-1938 | a client reads the number of a beam 1288 below the entity's, or that of entity 0 |
| NqTranslator.TranslationIsFaithful | src/pr_cmds.c:1785-1953 | any list of commands, split in any way, becomes the list of their translations with nothing left over |
| NqTranslator.IgnoresExactlyForeign | src/pr_cmds.c:1785-1953 | the frame is given up exactly at bytes that neither begin a supported command nor begin with one |
| NqTranslator.TranslatesUpToForeign | src/pr_cmds.c:1785-1953 | commands followed by foreign bytes, split in any way, become their translations, and the frame is then ignored |
| NqTranslator.EveryStreamSplits | src/pr_cmds.c:1785-1953 | every stream of bytes is whole commands and then nothing, part of a command, or foreign bytes |
| NqTranslator.Translator.Flush | src/pr_cmds.c:1769-1776 | the first bytes move to the output and the rest down |
| NqTranslator.Translator.Skip | src/pr_cmds.c:1778-1783 | the first bytes are dropped and the rest moves down |
| NqTranslator.Translator.TextCommand | src/pr_cmds.c:1817-1897 | commands that end in text make exactly one translation step, or wait |
| NqTranslator.Translator.Effect | src/pr_cmds.c:1896-1945 | temporary entities make exactly one translation step, or wait, or end the frame |
| NqTranslator.Translator.PlainCommand | src/pr_cmds.c:1810-1953 | the other commands make exactly one translation step, or wait, or end the frame |
| NqTranslator.Translator.Process | src/pr_cmds.c:1785-1953 | the loop does every step that is possible |
| NqTranslator.Translator.Write | src/pr_cmds.c:1962-1972 | writing appends and translates as far as possible |
| MvdFrames.ParseAllOfEncoded | src/sv_demo.c:370-459 | a sequence of demo messages is read back from its encoding |
| MvdFrames.MessageLayout | src/sv_demo.c:405-459 | where a message has its time, its kind and client, its mask and its length |
| MvdFrames.WriteKeepsMessages | src/sv_demo.c:370-459 | a write leaves well-formed messages whose content is the old one and the write's, whether it joins the last message or starts one |
| MvdFrames.FrameAlwaysParses | src/sv_demo.c:370-459 | after any writes that did not overflow, the frame parses into messages within the size limit whose content is the writes in order, the first stamped with the time and the others with 0 |
| MvdFrames.JoinsExactlyWhen | src/sv_demo.c:397-399 | a write joins the last message if and only if they have one address and fit into one message |
| MvdFrames.FrameIsGrouped | src/sv_demo.c:370-459 | so a frame parses into the writes joined as far as they can be, and no two messages that follow each other could be one |
| MvdFrames.DemoFrame.WriteHeader | src/sv_demo.c:405-459 | time, type, address and length as the type requires |
| MvdFrames.DemoFrame.BeginEx | src/sv_demo.c:370-459 | a new header, or the length of the last message patched in place |
| MvdFrames.DemoFrame.WriteMessage | src/sv_demo.c:461-475 | a write is begun and its bytes appended |
| MvdFrames.DemoFrame.Flush | src/sv_demo.c:693-731 | the frame goes out with its first byte stamped and is reset, unless it overflowed |
| Md4.Encode | src/md4.c:262-272 | words become bytes, low byte first |
| Md4.Decode | src/md4.c:276-283 | the words that encode to the bytes given |
| Md4.CountedIsSum | src/md4.c:138-142 | the two-word counter with its carry is 8 times the length modulo 2^64 |
| Md4.PaddedLayout | src/md4.c:166-187 | the padded message is the message, a one bit, zeros, and its length in bits |
| Md4.InitialBytes | src/md4.c:119-127 | the initial state is that of section 3.3 of RFC 1320 |
| Md4.WrapsExactlyWhen | src/md4.c:146-153 | when the loop index goes past 32 bits, and that the loop then runs on with less than a block left |
| Md4.Context.constructor | src/md4.c:119-127 | a new context stands for the empty message |
| Md4.Context.AbsorbBlocks | src/md4.c:152-153 | every whole block of the input is absorbed |
| Md4.Context.Update | src/md4.c:131-162 | the context stands for the message with the input appended |
| Md4.Final | src/md4.c:166-187 | the digest is that of RFC 1320 for the whole message |
| Md4.DigestOfChunks | src/md4.c:119-187 | for every split into updates the digest is that of the concatenation |
| Wildcards.NextStar | src/bothtools.c:669-677 | at a later star the earlier one can be forgotten |
| Wildcards.Mismatch | src/bothtools.c:683-687 | after a mismatch the star takes one character more and nothing is lost |
| Wildcards.UsedUp | src/bothtools.c:690-694 | at the end of the text only stars may be left |
| Wildcards.Wildcmp | src/bothtools.c:653-695 | the loops return exactly whether the pattern matches |
| Wildcards.GlobMatch | src/common.c:1669-1694 | matches exactly if the relation without regard to case holds and no upper case literal follows a star |
| Wildcards.GlobMatchAfterStar | src/common.c:1631-1660 | the same after a star |
| Wildcards.GlobMatchFoldsExactlyWhen | src/common.c:1631-1694 | it decides the relation without regard to case on all texts if and only if no upper case literal of the pattern follows a star |
| Wildcards.GlobMatchIsRightExactlyWhen | src/common.c:1656-1694 | it decides the documented relation, in which characters match exactly, on all texts if and only if no letter of the pattern stands for itself |
| Wildcards.GlobMatchCanFail | src/common.c:1631-1694 | the failing cases: "a" matches "A", and "*A" does not |
| Wildcards.GlobAgreesWithWildcmp | src/common.c:1669-1694 | in lower case and without a backslash the relations of the two matchers are one |
| Wildcards.BothMatchersAgree | src/bothtools.c:653-695 | so the two matchers agree there |
| CallFrames.LeaveAfterEnter | src/pr_exec.c:290-349 | a return right after a call restores the interpreter's state |
| CallFrames.ArgumentsArrive | src/pr_exec.c:309-318 | every argument is in the callee's locals where it belongs, if its source is not among those already written |
| CallFrames.ApartGetsAll | src/pr_exec.c:309-318 | which none is for a callee whose parameters are apart from the globals that arguments are given in |
| CallFrames.RunStaysAbove | src/pr_exec.c:614-651 | a run that has not returned below a depth leaves all saved there untouched |
| CallFrames.CallRestores | src/pr_exec.c:290-349 | after a call, any balanced run and the return, frames, local stack, function, statement and the callee's range of globals are as before |
| CallFrames.KeptValueComesBack | src/pr_exec.c:329-349 | what is stored to a global while an open call keeps it has no effect after the returns |
| CallFrames.CallsAreTransparent | src/pr_exec.c:290-349 | over a balanced run a global changes only by stores outside of the calls that saved it |
| CallFrames.Interpreter.EnterFunction | src/pr_exec.c:290-324 | the frame pushed, the locals saved, the arguments in the callee's locals, or the overflow found |
| CallFrames.Interpreter.LeaveFunction | src/pr_exec.c:329-349 | the frame popped and the locals put back, or the underflow found |
| CallFrames.Interpreter.CopyParameters | src/pr_exec.c:309-318 | the parameters are copied one after another, and the callee has its arguments |
| CallFrames.Interpreter.SaveLocals | src/pr_exec.c:300-307 | the callee's range is appended to the local stack |
| CallFrames.Interpreter.RestoreLocals | src/pr_exec.c:336-343 | the saved range is put back |
| InfoStore.SameNameSameBucket | src/common.c:1200-1211 | names that differ only in case have one hash |
| InfoStore.SameMeans | src/common.c:1225-1226 | names are the same exactly if they differ in nothing but the case of letters |
| InfoStore.PrintableInParts | src/common.c:1322-1335 | each character of a value is kept or skipped for itself, in order |
| InfoStore.PrintableOfOne | src/common.c:1322-1335 | and is kept exactly if it is above 13 |
| InfoStore.Print | src/common.c:1322-1335 | the loop that skips control characters |
| InfoStore.ComputeHashKey | src/common.c:1200-1211 | the loop that computes a hash |
| InfoStore.DistinctMeans | src/common.c:1290-1314 | no two entries have names equal without regard to case |
| InfoStore.LegalMeans | src/common.c:1269-1282 | which characters a name and a value may not have |
| InfoStore.RunIsWellFormed | src/common.c:1252-1345 | every run of operations keeps names distinct, legal and within the limits, and values printable and not empty |
| InfoStore.GetAfterSet | src/common.c:1252-1345 | a set gives the printable value under the name in any case and touches no other; when it fails, and that it then changes nothing |
| InfoStore.GetAfterRemove | src/common.c:1375-1426 | a removal takes away that name and no other, and says whether it was there |
| InfoStrings.SplitOfPair | src/common.c:1456-1473 | the first pair of a string is read back with the rest |
| InfoStrings.RoundTrip | src/common.c:1449-1512 | a store turned into a string and read back holds the same value under every name, in reverse order |
| InfoLists.ChainedWithout | src/common.c:1386-1399 | with one link skipped, the chains are those of the remaining nodes |
| InfoLists.ChainedWith | src/common.c:1302-1306 | with a node put at both fronts, the chains are those of the longer list |
| InfoLists.InfoCtx.constructor | src/common.h:139-147 | an empty store |
| InfoLists.InfoCtx.Lookup | src/common.c:1214-1230 | the chain of the bucket finds the node exactly if the list has the name |
| InfoLists.InfoCtx.SetStar | src/common.c:1252-1345 | list and chains hold the same nodes afterwards, and stand for the store that the set makes |
| InfoLists.InfoCtx.Remove | src/common.c:1375-1426 | the node leaves its chain and the list, and the count follows |
| InfoLists.InfoCtx.RemoveAll | src/common.c:1429-1447 | list, count and all chains are empty |
| InfoLists.InfoCtx.Convert | src/common.c:1449-1478 | every pair of the string is set in turn |
| InfoLists.InfoCtx.ReverseConvert | src/common.c:1480-1512 | the string of the list, exactly if it fits with its terminating zero |

## Left out

- Rounding of floats: coordinates, distances and times are reals. Where floats become bytes, any encoding with a fixed number of bytes is allowed.
- Sequence numbers beyond 2^31 - 1: a run stops there.
- Latency and rate statistics, the bandwidth choke, packet printing, and the qport, which the receiver does not use.
- Sockets, files, QTV streams and downloads: the network is a set of packets and a demo file is the bytes that are written.
- Half-Life maps, whose traces skip the bookkeeping of leafs.
- Map, vis and progs loading: hulls and trees are given with a rank that makes them acyclic, planes with the sign bits that the loader computes.
- Friction, acceleration, jumping, water jumping and spectator steering: the velocities that they leave are arbitrary, because the safety of movement does not depend on them.
- PlayerMove.Mover.PlayerMove: the velocities that acceleration and the like leave are given with the move, as said above.
- CallFrames.ArgumentsArrive: says nothing of an argument whose place was written to before it is copied, which takes a callee whose locals overlap the globals for arguments.
- Collision.CullingChangesNothing: as for the culling test.
- Collision.PlayerTraceIsSafe: as for the culling test.
- Collision.PlayerTraceStopsAtSolid: as for the culling test.
- Collision.CulledIsClear: brush models other than the world are assumed to lie inside their padded bounds, which the map compiler and not this code ensures.
- MD4Transform, which is any function of the state and a block.
- Md4.DigestOfChunks: the same restriction on each chunk as for an update.
- Md4.Context.Update: exactly the inputs for which the source's loop index wraps around and it reads past their end.
- Md4.Context.AbsorbBlocks: the same inputs.
- NqTranslator.Translator.Write: a write must fit into the translation buffer; the source stops with an error otherwise.
- Wildcards.GlobMatchAfterStar: as for the whole matcher.
- Wildcards.GlobMatch: a pattern must not end in a lone backslash, for which the source reads past its end.
- CallFrames.CallRestores: globals in the callee's range come back whole; its parameters must fit within its locals for all others to be unchanged, as LocalsComeBack and CallsAreTransparent say.
- The other instructions of the QuakeC interpreter, and the call statistics of PR_EnterFunction.
- Visibility of an entity to a client, hiding and the separate nail list: each is an answer given with the edict.
- EntityWriter.WriteDelta: an entity number of 0 or above 2047, for which the source stops with an error, and the printing that accompanies a clamped number.
- SnapshotRuns.SnapshotsStayInStep: the frame that a delta is from is still kept; the ring of frames being reused is not modelled.
- Freed memory and the static buffers in which Info_Get returns values.
- Demo destinations, and stopping a recording when a frame overflowed: the overflow is reported.
- The integer width of Info_HashKey is 64 bits and char is signed; only the low eight bits of the hash are used.

# A model of the OXRSys streaming runtime in Dafny

The project models the parts of the runtime whose correctness is spread over several functions, threads or peers, and
proves what they promise together. Each critical section of a mutex is one step of a state machine; a theorem about a
run holds for every interleaving of steps. Classes with the source's fields carry out the steps, and their methods are
proved against the machines' step functions.

| files | what they model |
|---|---|
| `Protocol` `FecCodec` `NalPackets` `NackCache` `NalSender` | how an encoded unit becomes datagrams with XOR parity, and the five-slot ring that answers retransmission requests |
| `NalReassembler` `NetworkReceiver` | the headset's reassembly and recovery, as a buffer and as the Android client's receiver |
| `VideoSendQueue` `PacketPacer` | the dropping queue in front of the sender, and its send schedule |
| `StreamReconfigure` `StreamingAbr` `SnapshotWait` | live reconfiguration with retries and acks, adaptive bitrate, the snapshot wait |
| `SessionLifecycle` `SessionObject` `Swapchain` `FrameGrid` | the session states and their events, the image ring, the frame deadlines |
| `Quaternions` `Rotations` `SpacePose` | glm's quaternion arithmetic over the reals, locating spaces, relative velocities |
| `TrackingHistory` `FrameQueue` `Leases` | what survives a change of client, a latest-only slot, leases and drains |
| `EncoderIpc` `JsonText` `ActionSync` `ActionRecord` | the helper's wire format and socket loops, JSON escaping, action aggregation and its record over time |

`dafny verify dfyconfig.toml` checks everything.

## What the proofs found

The code is modelled as it is. Where a promise does not hold on all inputs, the exact condition under which it does is
proved.

- Every unit of an encoded frame carries the frame's index, and a keyframe's parameter sets and slices are units of
  their own. A retransmission request names an index and a packet count; where two units share both, the first ring
  slot answers, rightly exactly when the two agree in what was asked for
  (`NackCache.SharedHeaderAnswersTheFirstSlot`). Of two such units sent in a row, nothing that only the second has is
  in any reply (`NackCache.TwinIsNeverResent`).
- The headset tells units apart by frame index alone. A lost tail and a lost head of two units of a frame make one
  delivered unit that is neither (`NalReassembler.MixtureDelivered`). When a datagram of another unit does no harm is
  exact (`NalReassembler.HarmlessExactly`); and its index is tested against its own count, not the pending unit's
  (`NetworkReceiver.Receiver.OnData`).
- `EndSession` looks at `state_` without the transition lock, and a transition writes `state_` before it pushes its
  event. Called in between, it puts IDLE before STOPPING (`SessionLifecycle.EndSessionInTheGapBreaksTheWalk`), except
  in the transitions of `RequestExitSession`, which holds a lock that `EndSession` waits for. Called twice, the second
  time before the first has written `state_`, it reports IDLE twice, and an application that waits for STOPPING can do
  that (`SessionLifecycle.SecondEndSessionBreaksTheWalk`). There is no third way
  (`SessionLifecycle.EndSessionSafeExactly`).
- `BeginSession` takes an exit request back after its checks, without a lock. When two calls overlap, the late one undoes
  an exit requested in between (`SessionLifecycle.ExitRequestIsLost`). Three frames always lead to STOPPING exactly when
  none is left between its checks and that write (`SessionLifecycle.StoppingWithinThreeFrames`).
- The reconfigure sequence wraps to zero after 2^32 - 1, where a request can no longer be told from none
  (`StreamReconfigure.PendingStateAgrees`, `StreamReconfigure.WrapIsReached`).
- The bitrate controller leaves its range only for a maximum above 4090445044 Mbps (`StreamingAbr.BitrateInRange`).
- Composing with a located pose gives the located pose back for a base orientation of unit norm, and for another one
  exactly when its axis lies along the offset (`SpacePose.ComposeUndoesRelative`). Poses are accepted within one percent
  of unit norm; by way of a space off unit norm others are located wrong (`SpacePose.ByWayOfExactly`).
- The same-type shortcut in `LocateSpace` and the general velocity computation agree exactly when the velocity of the
  common body is known (`SpacePose.ShortcutAgrees`).
- Stamps in the tracking history increase from neighbour to neighbour, and throughout exactly when no unstamped sample
  lies between stamped ones (`TrackingHistory.InOrderExactly`). A switch of client in the order the header asks for is
  always clean (`TrackingHistory.SwitchIsClean`); in the other order it is exactly when no sample of the old client is
  in the history, or on its way there, as the address is written (`TrackingHistory.AddressLastExactly`).
- A bounded drain can succeed too early exactly after a release nobody owed while something was active
  (`Leases.DrainSafeExactly`).
- The sign of an aggregated float depends on the order of the bindings exactly when the greatest magnitude is reached
  with both signs (`ActionSync.FloatOrderFreeExactly`), and a vector unless one of them is the longest in both axes and
  all that are agree (`ActionSync.VectorOrderFreeExactly`).
- The changed flag and the change time of a float or a vector are right at every sync exactly when no sync makes a move
  of 0.0001 or less (`ActionRecord.ChangesToldExactly`); otherwise they speak of the latest larger move
  (`ActionRecord.History`), and a float can drift anywhere unseen (`ActionRecord.DriftGoesUnseen`).

## Conventions

Clocks are any nondecreasing readings, given as scripts or arguments; a sleep returns at or after its deadline. Floats
are reals, so every value is finite. 16- and 32-bit counters wrap where the source's do. A call into the system, a
socket or another component is a parameter: what a poll sees, how many bytes a `send` moves, whether an encoder is
ready. The session-state graph is that of section 9 of the OpenXR 1.0 Specification, without loss of the session.

## Model

| member | source | states |
|---|---|---|
| `FecCodec.Encode` | common/FecCodec.h:26-43 | the buffer's first 1400 bytes become the column XOR of the zero-padded payloads; the rest of it is untouched |
| `FecCodec.Decode` | common/FecCodec.h:47-63 | given the parity of a group and the group without one payload, the first bytes of the buffer are that payload, for every group and every loss |
| `FecCodec.ParityRecoversMissing` | common/FecCodec.h:26-63 | parity XOR the other payloads' column is the missing payload, byte by byte |
| `FecCodec.GroupsPartition` | common/FecCodec.h:65-76 | packet i lies in group i / 10 and in no other; the ranges cover all packets |
| `NalPackets.PacketCountFits` | runtime/src/StreamingServer.cpp:3268-3269 | the 16-bit packet count is exact if and only if the unit has at most 65535 full packets, and always under the enforced unit limit |
| `NalPackets.PayloadShape` | runtime/src/StreamingServer.cpp:3297-3301 | all payloads but the last are full, the last is not empty, they tile the unit and their 16-bit sizes are exact |
| `NalPackets.WireLength` | runtime/src/StreamingServer.cpp:3297-3396 | how many datagrams are out after i data packets, parities included |
| `NalPackets.WireClosedForm` | runtime/src/StreamingServer.cpp:3268-3396 | the loop's whole wire image in closed form: its length, and the place of every data packet and every parity |
| `NalPackets.WireMembers` | runtime/src/StreamingServer.cpp:3297-3396 | nothing is on the wire but the unit's data packets and parities |
| `NalPackets.HeadersExactly` | runtime/src/StreamingServer.cpp:3305-3391 | what every header on the wire says: the unit's own flags, codec and time, the exact count and size, the end-of-frame flag on the last data packet alone, and in a parity the size of its group's last packet |
| `NalSender.PacketDispatch.PrepareSlot` | runtime/src/StreamingServer.cpp:3273-3291 | claims slot writeIndex mod 5, empties it and advances the index, keeping the ring invariant |
| `NalSender.PacketDispatch.SendNalUnit` | runtime/src/StreamingServer.cpp:3268-3405 | an admitted unit sends exactly its wire image, leaves its slot published and the ring invariant intact |
| `NalSender.PacketDispatch.SendPackets` | runtime/src/StreamingServer.cpp:3297-3396 | the packet loop emits the wire image in order while the slot fills one packet at a time |
| `NalSender.PacketDispatch.SendParity` | runtime/src/StreamingServer.cpp:3356-3395 | the parity datagram of a group, with the length of the group's last packet in its header |
| `NalSender.PacketDispatch.HandleNackRequest` | runtime/src/StreamingServer.cpp:3503-3551 | the reply is the scan's first match filtered by the bitmask, and in any state of the ring it is what the request asks of one published unit of the last five, or nothing |
| `NackCache.Reachable` | runtime/src/StreamingServer.cpp:3273-3405 | under every interleaving of the sender's critical sections with requests, a slot marked complete holds exactly the data packets of one of the last five units, and the slot being filled is never complete |
| `NackCache.ReplyComesFromOneUnit` | runtime/src/StreamingServer.cpp:3503-3551 | in every reachable state a reply comes whole from one published unit of the last five with the requested frame index and packet count; without such a unit nothing is sent |
| `NackCache.RequestedInOrder` | runtime/src/StreamingServer.cpp:3529-3546 | the packets of a reply were all asked for and come in strictly increasing index order, hence once each |
| `NackCache.RequestedComplete` | runtime/src/StreamingServer.cpp:3529-3546 | no in-range packet that was asked for is missing from the reply |
| `NackCache.UniqueUnitAnswers` | runtime/src/StreamingServer.cpp:3513-3546 | when one unit fits the request, that unit answers with everything asked for |
| `NackCache.FirstSlotAnswers` | runtime/src/StreamingServer.cpp:3513-3525 | when several units fit, the one in the lowest slot answers |
| `NackCache.SharedHeaderAnswersTheFirstSlot` | runtime/src/StreamingServer.cpp:3513-3525 | for two units with one frame index and packet count the reply suits the second if and only if the two agree in flags, codec and timestamp and, at every index asked for, in the payload |
| `NackCache.TwinIsNeverResent` | runtime/src/StreamingServer.cpp:3273-3551 | it happens: after a run that sends any two such units in a row, both fit every request for either, every reply is the first one's, and a packet of the second that differs from the first one's is in no reply |
| `NalReassembler.ErasureRoundTrip` | clients/android-vr/app/src/main/cpp/NetworkReceiver.cpp:421-655 | for every admitted unit and every order, loss and repetition of its datagrams: recovery completes if and only if every lost packet was its group's only loss and the parity arrived, and then compaction gives the unit back byte for byte |
| `NalReassembler.RecoveredIsLost` | clients/android-vr/app/src/main/cpp/NetworkReceiver.cpp:595-640 | a recovered packet has the lost packet's bytes and, through the parity header's tail length, its length |
| `NalReassembler.ArrivalsTrack` | clients/android-vr/app/src/main/cpp/NetworkReceiver.cpp:421-532 | whatever datagrams of the unit arrived, the buffer holds exactly their payloads and parities |
| `NetworkReceiver.Receiver.TryFecRecovery` | clients/android-vr/app/src/main/cpp/NetworkReceiver.cpp:575-655 | recovers every group that misses one packet and has its parity; reports true exactly when some packet was missing and none is now |
| `NetworkReceiver.Receiver.RecoverGroup` | clients/android-vr/app/src/main/cpp/NetworkReceiver.cpp:586-651 | one turn of the group loop: one packet back, or nothing in the group was recoverable |
| `NetworkReceiver.Receiver.OnParity` | clients/android-vr/app/src/main/cpp/NetworkReceiver.cpp:424-453 | a parity is stored once; recovery is tried only with at most one packet missing; the delivery is the compacted buffer |
| `NetworkReceiver.Receiver.OnData` | clients/android-vr/app/src/main/cpp/NetworkReceiver.cpp:455-532 | the data branch for any header: a packet of another frame gives the pending unit a last recovery and then, unless that delivered, starts its own; otherwise it is stored, and pastEnd tells where the test against the header's own count lets an index past the pending arrays through |
| `NetworkReceiver.Receiver.ReassembleFrame` | clients/android-vr/app/src/main/cpp/NetworkReceiver.cpp:421-573 | for a datagram of any unit: across frame indexes, whatever is delivered equals one sent unit byte for byte; within one, the buffer stays the pending unit's, and only that is delivered, if and only if the datagram is harmless, and the access past the end happens exactly when the index is past the pending count |
| `NalReassembler.HarmlessExactly` | clients/android-vr/app/src/main/cpp/NetworkReceiver.cpp:424-516 | a datagram of any unit leaves the buffer one of the pending unit if and only if it is a data packet within the pending count that was there already or has the same payload, or a parity out of range, there already, or equal in payload and tail size |
| `NalReassembler.OwnHarmless` | clients/android-vr/app/src/main/cpp/NetworkReceiver.cpp:424-516 | a unit's own datagrams are harmless and in range, so with one unit a frame all of them are |
| `NalReassembler.ForeignPacketSpoils` | clients/android-vr/app/src/main/cpp/NetworkReceiver.cpp:504-573 | after a data packet of another unit that is in range and not harmless, the pending unit's own packets complete the buffer and what is delivered is not the unit |
| `NalReassembler.MixtureDelivered` | clients/android-vr/app/src/main/cpp/NetworkReceiver.cpp:471-573 | from two units of one frame and packet count, the first packets of one and the rest of the other are delivered as one unit: the first only if their tails agree, the second only if their heads do |
| `NetworkReceiver.ParityDeliversExactly` | clients/android-vr/app/src/main/cpp/NetworkReceiver.cpp:436-446 | a new parity delivers the unit if and only if a single packet is missing and its group's parity, that one or an earlier one, is there |
| `NetworkReceiver.ResentStartsOver` | clients/android-vr/app/src/main/cpp/NetworkReceiver.cpp:455-503 | a packet resent for a unit whose buffer has gone to another starts that unit over, and completes it only if it has one packet |
| `VideoSendQueue.Reachable` | runtime/src/StreamingServer.cpp:2938-3031 | after every interleaving of queueing, taking, counting, clearing and the telemetry's exchange: depth at most two, flag equal to non-emptiness, and the counter with what was reported of it equal to the frames dropped, or one behind while the send thread has a stale frame to count |
| `VideoSendQueue.ExactlyOneFate` | runtime/src/StreamingServer.cpp:2938-3031 | each queued frame is in exactly one place: handed to the sender, dropped and counted, cleared, or pending |
| `VideoSendQueue.SentInOrder` | runtime/src/StreamingServer.cpp:2938-3031 | the frames handed on are an order-preserving subsequence of those queued, and nothing pending is older |
| `VideoSendQueue.KeyframesGoLast` | runtime/src/StreamingServer.cpp:2947-2967 | a step drops at most one frame, and a keyframe only to make room when every queued frame carries one |
| `VideoSendQueue.TakeExactly` | runtime/src/StreamingServer.cpp:2994-3024 | in every run the send thread hands over the front if and only if it is the only frame queued or carries a keyframe, and otherwise drops that frame and no other |
| `VideoSendQueue.QueueExactly` | runtime/src/StreamingServer.cpp:2938-2976 | a frame that finds room drops nothing; in a full queue exactly one goes: the older if it has no keyframe, else the newer if that has none, else the older |
| `VideoSendQueue.AloneIsSent` | runtime/src/StreamingServer.cpp:2938-3026 | a frame queued alone goes out with the next turn, whatever it carries |
| `VideoSendQueue.SendQueue.QueueEncodedVideoFrame` | runtime/src/StreamingServer.cpp:2938-2976 | the eviction loop and the append are the Queue step of the machine |
| `VideoSendQueue.SendQueue.TakeFrame` | runtime/src/StreamingServer.cpp:2994-3016 | the locked part of a turn of the send thread: the front is taken out, handed over if and only if nothing newer waits or it carries a keyframe, and otherwise dropped and still to be counted |
| `VideoSendQueue.SendQueue.CountStaleFrame` | runtime/src/StreamingServer.cpp:3019-3023 | the counter goes up after the mutex is back: the CountStale step |
| `VideoSendQueue.SendQueue.TakeDroppedCount` | runtime/src/StreamingServer.cpp:1540-1540 | the exchange with zero returns the drops counted since the last one |
| `VideoSendQueue.SendQueue.ClearVideoSendQueue` | runtime/src/StreamingServer.cpp:2978-2983 | clearing is the Clear step |
| `PacketPacer.PlanMatchesUnit` | runtime/src/PacketPacer.cpp:21-31 | DatagramsForNal is the number of paced sends the packet loop makes for the unit |
| `PacketPacer.PlanMatchesFrame` | runtime/src/StreamingServer.cpp:3051-3072 | summed over a frame's units, the plan is the number of paced sends of the frame |
| `PacketPacer.PacingWindowNs` | runtime/src/PacketPacer.cpp:33-51 | zero when pacing is off; otherwise the window set for the frame, twice the usual one for a keyframe without its own, or 0.8 of the frame period if that is less, rounded down |
| `PacketPacer.EvenSpacing` | runtime/src/PacketPacer.cpp:58-72 | consecutive deadlines differ by SpacingNs or one nanosecond more |
| `PacketPacer.DeadlineExactly` | runtime/src/PacketPacer.cpp:58-72 | the deadline of packet i is its share i / n of the window, and the spacing one share, each rounded down |
| `PacketPacer.DeadlinesAscend` | runtime/src/PacketPacer.cpp:58-67 | deadlines start at startNs and never decrease |
| `PacketPacer.WindowRespected` | runtime/src/PacketPacer.cpp:58-72 | packet 0 goes at once and every packet is due at least one spacing before the window closes |
| `PacketPacer.WaitUntilNs` | runtime/src/PacketPacer.cpp:96-118 | stops at the first poll that flushes or has reached the deadline; requested sleeps stop short of it by the spin threshold |
| `PacketPacer.Pacer.WaitForNextPacket` | runtime/src/PacketPacer.cpp:74-88 | no packet leaves before its deadline unless a poll asked to flush, and a flush stays |
| `StreamReconfigure.Tracker.Tick` | runtime/src/StreamingReconfigure.h:44-66 | the retry decision of PendingState, with its new state |
| `StreamReconfigure.Tracker.AcceptAck` | runtime/src/StreamingReconfigure.h:68-82 | an ack is taken only while pending with the same sequence |
| `StreamReconfigure.StreamConfig.RequestUpdate` | runtime/src/StreamingServer.cpp:2585-2643 | with nothing pending a request carries the applied sequence plus one and leaves all three pieces of pending state on it; otherwise it changes nothing |
| `StreamReconfigure.StreamConfig.TickPending` | runtime/src/StreamingServer.cpp:2516-2551 | a due tick sends the stored update again while retries are left, then drops it and asks for the disconnect |
| `StreamReconfigure.StreamConfig.HandleAck` | runtime/src/StreamingServer.cpp:2764-2785 | an OK ack with the pending sequence and size hands out the stored update; any other ack of that sequence drops it; other sequences change nothing |
| `StreamReconfigure.StreamConfig.InstallLayout` | runtime/src/StreamingServer.cpp:2659-2753 | the layout is replaced only with the size the client acknowledged and an encoder ready; then the applied sequence goes up by one, otherwise not at all |
| `StreamReconfigure.StreamConfig.FinishApply` | runtime/src/StreamingServer.cpp:2754-2758 | the last lock clears the pending state |
| `StreamReconfigure.Reachable` | runtime/src/StreamingServer.cpp:2508-2785 | the handshake's invariant in every interleaving of requests, ticks, acks, installs and drops |
| `StreamReconfigure.PendingStateAgrees` | runtime/src/StreamingServer.cpp:2508-2643 | pending sequence, stored update and PendingState always agree, below the last 32-bit sequence number; at it the next request breaks the agreement, and only there |
| `StreamReconfigure.SequenceReached` | runtime/src/StreamingServer.cpp:2585-2785 | for every sequence number up to the last there is a run of requests, acks, layouts and last locks that applies it and leaves nothing pending |
| `StreamReconfigure.WrapIsReached` | runtime/src/StreamingServer.cpp:2585-2643 | so the last one is reached, and there the request's own sequence is zero and PendingState is pending under it |
| `StreamReconfigure.LateAckAccepted` | runtime/src/StreamingServer.cpp:2764-2785 | the ack of a dropped request, coming late, is accepted for the next request of the same size |
| `StreamReconfigure.TickExactly` | runtime/src/StreamingServer.cpp:2516-2551 | in every run a tick acts on a request that awaits its answer exactly once a timeout has passed since the last send: it sends again while there were fewer than 1 + maxRetries sends, and after that gives up |
| `StreamReconfigure.AckExactly` | runtime/src/StreamingServer.cpp:2764-2785 | in every run an ack counts only for the pending sequence: OK with the update's size hands it out to be installed, anything else rejects the request |
| `StreamReconfigure.PendingEnds` | runtime/src/StreamingServer.cpp:2508-2785 | what is pending is being installed or awaits its answer, and an unanswered request is gone after 1 + maxRetries ticks a timeout apart |
| `StreamReconfigure.RetriesBounded` | runtime/src/StreamingServer.cpp:2516-2570 | by the clock readings its sends are stamped with, an update is sent at most 1 + maxRetries times, at least a timeout apart, and given up no earlier than maxRetries + 1 timeouts after it began |
| `StreamReconfigure.SendsBounded` | runtime/src/StreamingServer.cpp:2516-2570 | on the wire, where sends follow their decisions after any delay and in any order, a request goes out at most 1 + maxRetries times, and where no send fails once for each time it is stamped |
| `StreamReconfigure.AppliedOnlyOnMatchingAck` | runtime/src/StreamingServer.cpp:2659-2785 | the applied sequence counts the applications; the i-th carries sequence i + 1 and answers an OK ack with that sequence and the size of the layout then in force |
| `StreamingAbr.BitrateInRange` | runtime/src/StreamingAbr.h:92-194 | the bitrate stays in [10, max] in every run if and only if max <= 4090445044, where adding a twentieth leaves 32 bits; the configuration caps max at 200 |
| `StreamingAbr.Recovers` | runtime/src/StreamingAbr.h:108-194 | from the end of any run, 4 + 5 * (max - 10) or more samples below every threshold bring the bitrate to exactly max |
| `StreamingAbr.GapCloses` | runtime/src/StreamingAbr.h:108-223 | after four clean samples every further one brings the next increase nearer, whatever was in the window before |
| `StreamingAbr.UnhealthyStepLowers` | runtime/src/StreamingAbr.h:156-163 | an update that is not stable lowers the bitrate strictly, or finds it at 10 |
| `StreamingAbr.UnhealthyReachesFloor` | runtime/src/StreamingAbr.h:156-163 | n such updates in a row lower it by at least n, or to 10 |
| `StreamingAbr.QualityIsEarned` | runtime/src/StreamingAbr.h:225-253 | the quality profile appears only in full mode, after four stable updates in a row and at nine tenths of max |
| `StreamingAbr.ScaleBounded` | runtime/src/StreamingAbr.h:255-270 | the scale asked for lies between the configured minimum and the configured scale, and is full in a stable state |
| `StreamingAbr.StateExactly` | runtime/src/StreamingAbr.h:118-163 | in the fields of the sample: recovery on any keyframe request, encoder drop, second send drop, frame of 85 ms, 12 reprojected or 18 reused; otherwise constraint exactly on two pose fallbacks or a mean over the newest five samples at one of four limits |
| `StreamingAbr.WindowAtALimit` | runtime/src/StreamingAbr.h:126-163 | a window whose every sample is at one of the limits is never stable |
| `StreamingAbr.UnstableInNumbers` | runtime/src/StreamingAbr.h:165-173 | what such a report leads to: 80 or 90 percent of the bitrate, at least 10, no stable windows, a hold of at least four, and the profile and scale of each state |
| `StreamingAbr.StableInNumbers` | runtime/src/StreamingAbr.h:174-203 | what a stable one leads to: every fifth in a row raises the bitrate by a twentieth, or one, up to the maximum; the hold falls by one; full scale |
| `StreamingAbr.QualityExactly` | runtime/src/StreamingAbr.h:225-253 | a stable report in full mode has the quality profile exactly when the hold is over, frame age and reprojection are low and the bitrate is nine tenths of max |
| `StreamingAbr.Controller.Average` | runtime/src/StreamingAbr.h:210-223 | the loop's mean over the window, zero when it is empty |
| `StreamingAbr.Controller.Update` | runtime/src/StreamingAbr.h:108-194 | one report: the window is the newest five samples, the state is what the sample and their means say, the bitrate falls to 80 or 90 percent or to 10, or rises as in the update function, and the profile follows; mode off changes nothing but the state |
| `StreamingAbr.Controller.Reset` | runtime/src/StreamingAbr.h:92-107 | clamps everything into the ranges the invariant asks for |
| `SnapshotWait.ModeIsLatestRun` | runtime/src/SnapshotWaitPolicy.h:63-86 | the saturating 32-bit counters compute the history definition: long exactly if the latest qualifying run was a late one |
| `SnapshotWait.SwitchesApart` | runtime/src/SnapshotWaitPolicy.h:63-86 | two switches are at least the threshold of the second apart, one frame if that is zero |
| `SnapshotWait.ThresholdsFor` | runtime/src/SnapshotWaitPolicy.h:46-55 | the waits and thresholds for every frame rate: one period up to 16.7 ms, one period from 100 ms, three late frames and two seconds on time |
| `SnapshotWait.SnapshotWaitMode.Record` | runtime/src/SnapshotWaitPolicy.h:63-86 | after each frame the mode is the one the recorded history defines, and the result tells whether it changed |
| `SnapshotWait.OneBudget` | runtime/src/SnapshotWaitPolicy.h:101-128 | the waits for all images of a frame together take one budget at most, whatever time passes between them |
| `SnapshotWait.RestOfBudget` | runtime/src/SnapshotWaitPolicy.h:107-119 | each image is waited for with exactly what the waits and the time before it have left of the budget |
| `SnapshotWait.NoGapsNoOverrun` | runtime/src/SnapshotWaitPolicy.h:101-128 | with no time passing outside the waits, the time reported is within the budget |
| `SnapshotWait.BudgetOfTheMode` | runtime/src/SnapshotWaitPolicy.h:55-58 | no frame waits longer than the mode it starts in allows; in the short mode a ready frame is late only through, and by no more than, the time that passes outside its waits |
| `SnapshotWait.Waiter.WaitForFrameSnapshots` | runtime/src/SnapshotWaitPolicy.h:101-128 | overlays, then the eyes, up to the first image that is not ready; the sum of the waits within the budget; the result from readiness and supersession |
| `SessionLifecycle.EventsAreAWalk` | runtime/src/Session.cpp:218-344 | in every interleaving of any number of calls in flight, BeginSession and EndSession a step for each of their writes, the events pushed form a walk of the session-state graph and the polled ones a prefix, provided every EndSession that is accepted comes after STOPPING was pushed, or while RequestExitSession is about to push it, and with no other EndSession in flight |
| `SessionLifecycle.ClimbsOneStateAFrame` | runtime/src/Session.cpp:1221-1274 | over all runs with no exit requested and no EndSession the events are the first of IDLE, READY, SYNCHRONIZED, VISIBLE, FOCUSED, and after n completed EndFrames exactly 2 + min(n, 3) of them; so a FOCUSED session reports nothing more |
| `SessionLifecycle.EndSessionSafeExactly` | runtime/src/Session.cpp:272-320 | the condition is exact: after any run that keeps it, one more EndSession that is accepted leaves every continuation a walk if and only if STOPPING was pushed, or RequestExitSession is about to push it under the frame lock that EndSession has to wait for, and no other EndSession is in flight |
| `SessionLifecycle.EndSessionInTheGapBreaksTheWalk` | runtime/src/Session.cpp:272-320 | EndSession between the write of state_ and the push of its event, outside the frame lock, puts IDLE before STOPPING, from every such state |
| `SessionLifecycle.GapIsReached` | runtime/src/Session.cpp:1221-1250 | and the EndFrame that follows an exit request in SYNCHRONIZED goes through such a state |
| `SessionLifecycle.SecondEndSessionBreaksTheWalk` | runtime/src/Session.cpp:272-320 | an EndSession accepted while another has passed its check and not yet written state_ leads to IDLE twice in a row, from every such state |
| `SessionLifecycle.SecondCallIsReached` | runtime/src/Session.cpp:272-320 | and an application whose threads have both polled STOPPING gets to such a state |
| `SessionLifecycle.RankFalls` | runtime/src/Session.cpp:1221-1274 | once exit is requested and no BeginSession is left between its checks and its reset of the request, that stays so, no step raises the rank and every completed EndFrame lowers it by one |
| `SessionLifecycle.StoppingWithinThreeFrames` | runtime/src/Session.cpp:237-344 | with exit requested, three completed EndFrames reach STOPPING or past it, two from READY, on every continuation, if and only if the session is there already or no BeginSession is between its checks and its reset of the request |
| `SessionLifecycle.LateBeginLosesExit` | runtime/src/Session.cpp:237-263 | otherwise, from every such state and for every number n, a continuation completes n EndFrames and does not reach STOPPING |
| `SessionLifecycle.ExitRequestIsLost` | runtime/src/Session.cpp:237-263 | and it happens: from a new session, two overlapping BeginSessions and an exit request between them lead in three frames to FOCUSED with no request standing and nothing under way |
| `SessionLifecycle.ExitInReady` | runtime/src/Session.cpp:322-344 | an exit requested in READY goes to STOPPING at once, or a waited or begun frame is outstanding |
| `SessionObject.SessionHandle.BeginSession` | runtime/src/Session.cpp:237-270 | error codes in order, and the four steps of the machine on success |
| `SessionObject.SessionHandle.BeginFrame` | runtime/src/Session.cpp:635-660 | error codes in order, a discarded frame told from a begun one, the counter down by one |
| `SessionObject.SessionHandle.EndFrame` | runtime/src/Session.cpp:662-857 | the checks and the frame flag cleared; without an exit request one state up to FOCUSED and none beyond, with one a state nearer to STOPPING |
| `SessionObject.SessionHandle.RequestExitSession` | runtime/src/Session.cpp:322-344 | the exit flag, and from an idle READY both transitions at once |
| `SessionObject.SessionHandle.EndSession` | runtime/src/Session.cpp:272-320 | refused outside STOPPING; not running but still STOPPING when the server does not stop; otherwise IDLE, EXITING and counters cleared |
| `SessionObject.EventQueue.PushEvent` | runtime/src/Instance.cpp:239-243 | appends, and keeps every session's pushed states its polled ones and then its waiting ones |
| `SessionObject.EventQueue.PollEvent` | runtime/src/Instance.cpp:245-256 | takes the oldest event; so the polled states of every session that was not removed are a prefix of its pushed ones, whatever was removed of others |
| `SessionObject.EventQueue.RemoveEventsForSession` | runtime/src/Instance.cpp:258-275 | removes exactly the events about the session, keeps the order of the rest and what every other session reported |
| `Swapchain.Reachable` | runtime/src/SwapchainCommon.cpp:132-222 | in every run the acquired queue is exactly the non-available images, the cyclic run ending just before nextAcquireIndex_, and only its front may be waited |
| `Swapchain.NextIsFree` | runtime/src/SwapchainCommon.cpp:145-158 | with room left the scan stops at its first candidate |
| `Swapchain.RingInOrder` | runtime/src/SwapchainCommon.cpp:132-222 | the k-th successful acquire and the k-th successful release both use image k mod n, and each call fails exactly when all are held, a static image is spent, or the front was not waited for |
| `Swapchain.RingRefinesTally` | runtime/src/SwapchainCommon.cpp:132-222 | for every sequence of calls all the results are those given by three numbers: how many acquires and releases have succeeded, and whether a wait has since |
| `Swapchain.ReleaseFollowsWait` | runtime/src/SwapchainCommon.cpp:174-222 | on the calls alone: a release succeeds if and only if a wait has succeeded since the last one that did; after a wait that succeeds the next release gives the oldest image held and a second wait fails |
| `Swapchain.HasReleasedExactly` | runtime/src/SwapchainCommon.cpp:360-364 | an image can be shown exactly when something was released and fewer than n images are held |
| `Swapchain.SwapchainImages.AcquireImage` | runtime/src/SwapchainCommon.cpp:132-172 | the locked part is the machine's acquire, its index or call-order error included |
| `Swapchain.SwapchainImages.WaitImage` | runtime/src/SwapchainCommon.cpp:174-195 | only the front, and only when acquired; it is waited for from then on |
| `Swapchain.SwapchainImages.ReleaseImage` | runtime/src/SwapchainCommon.cpp:197-222 | only the front, and only when waited for; it becomes the last released image |
| `FrameGrid.NeverEarly` | runtime/src/Session.cpp:551-576 | no frame after the first is released before its deadline |
| `FrameGrid.ReleaseRateBounded` | runtime/src/Session.cpp:551-576 | any n releases spanning time T satisfy n <= T / period + 4, across stalls and snap-backs |
| `FrameGrid.NoDrift` | runtime/src/Session.cpp:555-569 | between snap-backs the k-th deadline after a seed is exactly seed + k * period, whatever the sleeps overshoot |
| `FrameGrid.GridHoldsUntilThreePeriodsLate` | runtime/src/Session.cpp:563-576 | the grid snaps back exactly when a release is more than three periods behind it |
| `FrameGrid.SleepsExactlyWhenEarly` | runtime/src/Session.cpp:551-567 | a call sleeps exactly when it comes before its deadline and otherwise goes at once; the first seeds the grid one period ahead |
| `FrameGrid.SnapRestarts` | runtime/src/Session.cpp:569-576 | after a release more than two periods past the next deadline the grid starts over one period after it |
| `FrameGrid.FramePacer.WaitFrame` | runtime/src/Session.cpp:551-577 | the pacing block releases and advances as the grid function does |
| `SpacePose.ComposeUndoesRelative` | runtime/src/Space.cpp:175-206 | composing the base with the relative pose gives the located pose back if and only if the base orientation has unit norm or its axis lies along the offset between the two |
| `SpacePose.RelativeUndoesCompose` | runtime/src/Space.cpp:175-206 | the pose of an offset space relative to its base is the offset |
| `SpacePose.LocatingIsTransitive` | runtime/src/Space.cpp:191-206 | by way of a b of unit orientation, locating a in c is locating b in c, then a in b, if and only if the orientation of c has unit norm or the axis of b lies along the offset between a and b |
| `SpacePose.ByWayOfExactly` | runtime/src/Space.cpp:191-206 | by way of a b of any orientation but zero, a is located right in every c of unit orientation if and only if b has unit norm or a is where b is |
| `SpacePose.BodyDropsOut` | runtime/src/Space.cpp:175-206 | two spaces on one body lie the same way to each other wherever the body is |
| `SpacePose.RigidBodyAtRest` | runtime/src/SpaceVelocity.h:23-95 | two offsets of one rigid body have zero relative velocity; which parts are valid, exactly |
| `SpacePose.ShortcutAtRest` | runtime/src/Space.cpp:242-258 | two velocities taken for zero have a valid zero relative velocity |
| `SpacePose.ShortcutAgrees` | runtime/src/Space.cpp:165-258 | for two spaces with one active anchor, through their world poses, the general computation finds the shortcut's answer exactly when both parts of the anchor's velocity are known |
| `SpacePose.RelativeVelocityMoves` | runtime/src/SpaceVelocity.h:24-95 | the velocity between two spaces is how the one moves for the other: turned into the world, with the base's own motion and its sweep of the distance put back, it is v + w x r of the target's body; and exactly which parts are known |
| `SpacePose.LocateSpace` | runtime/src/Space.cpp:225-259 | the error codes; on success the pose composes back, one reference type means at rest, and other spaces move for each other as their bodies do |
| `Rotations.ThereAndBackExactly` | runtime/src/Space.cpp:194-202 | rotating by glm's inverse and back is the identity on v if and only if the quaternion has unit norm or turns about v |
| `Rotations.RotateByProduct` | runtime/src/Space.cpp:175-206 | for unit quaternions, rotating by a product is rotating twice |
| `TrackingHistory.HistoryOrdered` | runtime/src/TrackingReceiver.cpp:511-573 | in every run at most eight samples, adjacent stamped ones strictly increasing, the latest packet last |
| `TrackingHistory.AllStored` | runtime/src/TrackingReceiver.cpp:532-537 | a sequence of up to eight samples is kept whole if and only if no stamped neighbours fail to increase |
| `TrackingHistory.NewestKept` | runtime/src/TrackingReceiver.cpp:511-573 | of a sequence of any length whose stamped neighbours increase exactly the newest eight are kept, in order |
| `TrackingHistory.InOrderExactly` | runtime/src/TrackingReceiver.cpp:511-573 | of all runs that end in a given pattern of stamped and unstamped samples, every one leaves the stamped ones increasing if and only if no unstamped sample has a stamped one on both sides |
| `TrackingHistory.UnstampedLetsOlderIn` | runtime/src/TrackingReceiver.cpp:532-537 | an unstamped sample lets an older stamp in after a newer one |
| `TrackingHistory.SwitchIsClean` | runtime/src/TrackingReceiver.h:49-52 | address set, then reset, with a store of the old client's in the middle: every UDP sample from then on is the new client's |
| `TrackingHistory.ResetFirstIsNotClean` | runtime/src/TrackingReceiver.h:49-52 | in the other order a store already past its check lands the old client's sample after the reset |
| `TrackingHistory.AddressLastExactly` | runtime/src/TrackingReceiver.cpp:511-573 | after any run, resets included, writing the address last leaves every later history free of other clients if and only if, as it is written, none of their UDP samples is in the history and none is past its check that will not be refused as reordered |
| `TrackingHistory.Receiver.StorePacket` | runtime/src/TrackingReceiver.cpp:511-573 | stored exactly if admitted and not reordered, then last of the history; otherwise nothing changes |
| `TrackingHistory.Receiver.Clear` | runtime/src/TrackingReceiver.cpp:212-218 | empties history and latest |
| `FrameQueue.ExactlyOnePlace` | runtime/src/StreamingFrameQueue.cpp:33-123 | in every interleaving each pushed frame is in one place, once: popped, released, discarded, on its way to release, or pending |
| `FrameQueue.PopsTakeTheNewest` | runtime/src/StreamingFrameQueue.cpp:54-70 | pops follow push order and each takes the newest frame pushed by then |
| `FrameQueue.CallbackGetsAll` | runtime/src/StreamingFrameQueue.cpp:106-123 | with the callback set throughout a run no frame is discarded without it, and with none set it is never called |
| `FrameQueue.LatestFrame.PushLatest` | runtime/src/StreamingFrameQueue.cpp:33-52 | the new frame is pending and the one it replaced, if any, is released |
| `FrameQueue.LatestFrame.WaitPop` | runtime/src/StreamingFrameQueue.cpp:54-70 | takes the pending frame, the newest, even from a stopped queue |
| `FrameQueue.LatestFrame.ClearPending` | runtime/src/StreamingFrameQueue.cpp:95-104 | the pending frame, if any, is released and the slot is empty |
| `FrameQueue.LatestFrame.ReleaseFrame` | runtime/src/StreamingFrameQueue.cpp:106-122 | one call of the callback for the frame, or none if there is no callback |
| `Leases.LeasesExclusive` | runtime/src/SnapshotLeasePool.h:37-66 | in every interleaving no two live leases share a slot, and a slot is marked exactly while a lease holds it |
| `Leases.StopEndsLeases` | runtime/src/SnapshotLeasePool.h:68-76 | once stopping and nothing is marked, no lease is live and none is ever granted again |
| `Leases.StoppingExactly` | runtime/src/SnapshotLeasePool.h:68-76 | the pool refuses leases exactly once it has been told to stop |
| `Leases.LastCopyFrees` | runtime/src/SnapshotLeasePool.h:18-66 | copies of a lease share its slot: it stays taken as long as one of them is left, whatever else happens, and the drop of the last one frees it |
| `Leases.LeasePool.TryAcquire` | runtime/src/SnapshotLeasePool.h:37-66 | the first free reusable slot, unless stopping |
| `Leases.LeasePool.Release` | runtime/src/SnapshotLeasePool.h:55-62 | the end of a lease frees its slot and no other lease's |
| `Leases.LeasePool.StopAndTest` | runtime/src/SnapshotLeasePool.h:68-76 | the wait's condition holds exactly when no lease is live |
| `Leases.CountIsHolders` | runtime/src/BoundedDrain.h:15-37 | the counter is the number of holders less the releases nobody owed |
| `Leases.DrainSafeExactly` | runtime/src/BoundedDrain.h:15-66 | at every point of a run every honest continuation whose wait succeeds leaves no holder, if and only if no call of the run released, while something was active, what nobody owed |
| `Leases.DrainedMeansNoHolder` | runtime/src/BoundedDrain.h:15-66 | after a run without such a call a stop-and-wait that succeeds leaves no holder; and until a reset none appears |
| `Leases.StrayReleaseBreaksDrain` | runtime/src/BoundedDrain.h:26-37 | one release too many lets the wait succeed with a holder left |
| `Leases.BoundedDrain.TryAcquire` | runtime/src/BoundedDrain.h:15-24 | refused once stopping, else one more |
| `Leases.BoundedDrain.StopAndTest` | runtime/src/BoundedDrain.h:44-49 | the wait's condition, and what it means for the holders |
| `Leases.BoundedDrain.Reset` | runtime/src/BoundedDrain.h:57-66 | refused while anything is active |
| `EncoderIpc.ValueOfBytes` | runtime/encoder_helper/EncoderHelperIpc.h:136-148 | a little-endian field reads back as what was put exactly when it fits its width |
| `EncoderIpc.SignedRoundTrip` | runtime/encoder_helper/EncoderHelperIpc.h:149-149 | every int64 survives its two's-complement field |
| `EncoderIpc.ParsedFramed` | runtime/encoder_helper/EncoderHelperIpc.h:215-253 | a framed message parses back, whatever follows it, exactly when its payload is within 8 MiB |
| `EncoderIpc.FrameLayout` | runtime/encoder_helper/EncoderHelperIpc.h:215-225 | the bytes of a frame on the wire: magic, kind, version 2, length and payload, each number low byte first |
| `EncoderIpc.ParsedIsFramed` | runtime/encoder_helper/EncoderHelperIpc.h:215-253 | whatever parses is the frame of what it parses to |
| `EncoderIpc.StreamRoundTrip` | runtime/encoder_helper/EncoderHelperIpc.h:215-253 | a stream of any list of framed messages parses to the list |
| `EncoderIpc.InitRoundTrip` | runtime/encoder_helper/EncoderHelperIpc.h:256-300 | DeserializeInit inverts SerializeInit exactly on the valid values |
| `EncoderIpc.InitLayout` | runtime/encoder_helper/EncoderHelperIpc.h:256-269 | where each of the nine fields of the Init payload is on the wire |
| `EncoderIpc.AcceptedExactly` | runtime/encoder_helper/EncoderHelperIpc.h:271-300 | in numbers, which Init payloads are accepted: preset up to 2, codec and profile up to 1, 1 to 16 slots, and a size |
| `EncoderIpc.AcceptedInitIsSerialized` | runtime/encoder_helper/EncoderHelperIpc.h:271-300 | any accepted buffer begins with the serialization of its result, a valid value |
| `EncoderIpc.DeserializeInit` | runtime/encoder_helper/EncoderHelperIpc.h:271-300 | reading nine fields with the bounds-checked reader is the parser |
| `EncoderIpc.SerializeInit` | runtime/encoder_helper/EncoderHelperIpc.h:256-269 | pushing nine fields is the serialization |
| `EncoderIpc.Reader.ReadField` | runtime/encoder_helper/EncoderHelperIpc.h:159-204 | the value at the cursor, or zero and no longer ok, the cursor then unmoved |
| `EncoderIpc.ParseHeader` | runtime/encoder_helper/EncoderHelperIpc.h:238-253 | short headers are refused; others give the four fields and the verdict |
| `EncoderIpc.Socket.SendAll` | runtime/encoder_helper/EncoderHelperIpc.h:337-356 | all of the data, or a proper prefix and a call that failed |
| `EncoderIpc.Socket.RecvAll` | runtime/encoder_helper/EncoderHelperIpc.h:358-376 | exactly the next bytes of the stream, or its end or a call that failed |
| `EncoderIpc.Socket.RecvFramed` | runtime/src/EncoderHelperClient.mm:39-57 | a message received is the one the unread stream parses to |
| `EncoderIpc.Exchange` | runtime/encoder_helper/EncoderHelperIpc.h:215-376 | under any partial writes, partial reads and interruptions, what is received is the list that was sent, and nothing fails but by a call that failed or moved nothing, or for want of calls |
| `JsonText.JsonEscape` | runtime/src/RuntimeStatus.cpp:60-105 | the loop's output, closed by a quote, reads as one literal holding exactly the input |
| `JsonText.EscapeReadsBack` | runtime/src/RuntimeStatus.cpp:60-105 | reading by section 7 of RFC 8259 gives every byte string back, whatever follows the closing quote |
| `JsonText.NoControlLeft` | runtime/src/RuntimeStatus.cpp:60-105 | no control byte is left raw |
| `JsonText.NoRawQuote` | runtime/src/RuntimeStatus.cpp:60-105 | no quote inside is left raw |
| `JsonText.EscapeInjective` | runtime/src/RuntimeStatus.cpp:60-105 | different strings have different escapes |
| `JsonText.EscapedExactly` | runtime/src/RuntimeStatus.cpp:60-105 | quote, backslash and control bytes are escaped, five of the controls in a short form, and no other byte is touched |
| `ActionSync.FoldFilters` | runtime/src/EntryPoint.cpp:2206-2298 | folding binding by binding, starting over at a higher priority, is filtering to the usable bindings of highest priority and absorbing those |
| `ActionSync.ChosenExactly` | runtime/src/EntryPoint.cpp:2206-2250 | controllers outrank hands: with any controller's binding present exactly those of the controllers that are present take part, otherwise exactly those of the hands |
| `ActionSync.AggregationMeaning` | runtime/src/EntryPoint.cpp:2206-2298 | the bound sources are exactly those bindings; a boolean is their OR; a float is one of theirs of the greatest magnitude; a vector is one of theirs; a pose is that of the first with a path |
| `ActionSync.OrderDoesNotMatter` | runtime/src/EntryPoint.cpp:2206-2298 | activity, booleans, priorities and float magnitudes are the same for every order of the bindings |
| `ActionSync.FloatOrderFreeExactly` | runtime/src/EntryPoint.cpp:2259-2270 | the signed float is the same for every order if and only if the greatest magnitude is not reached with both signs |
| `ActionSync.VectorOrderFreeExactly` | runtime/src/EntryPoint.cpp:2272-2282 | a vector is the same for every order if and only if nothing is chosen, or one of the chosen is the longest in both axes and all that are have one value |
| `ActionSync.VectorOrderMatters` | runtime/src/EntryPoint.cpp:2272-2282 | of two vectors each longer in its own axis the later one wins |
| `ActionSync.AccumulateBindingState` | runtime/src/EntryPoint.cpp:2215-2298 | the field-by-field update is one step of the fold |
| `ActionSync.CollectAggregates` | runtime/src/EntryPoint.cpp:2391-2434 | every action and subaction path gets the fold of its own bindings, and none an entry without one |
| `ActionRecord.History` | runtime/src/ActionSet.cpp:58-105 | over any run of syncs of an action of any kind the record holds the latest aggregate, the flag tells whether that sync moved it by more than 0.0001, and the time is that of the latest sync that did |
| `ActionRecord.ChangesToldExactly` | runtime/src/ActionSet.cpp:93-104 | at every sync of a run the flag tells whether the stored value changed and the time is that of the latest change, if and only if no sync moves a float, or both coordinates of a vector, by 0.0001 at most and not by zero |
| `ActionRecord.SmallMovesAre` | runtime/src/ActionSet.cpp:93-104 | such a move, in numbers; a boolean has none |
| `ActionRecord.BooleanHistory` | runtime/src/ActionSet.cpp:58-105 | so over any run of syncs of a boolean action the record holds the OR of the latest bindings, the flag tells whether that sync changed it, and the time is that of the latest change |
| `ActionRecord.DriftGoesUnseen` | runtime/src/ActionSet.cpp:93-104 | and by syncs of one binding a float can go anywhere in steps of 0.0001 without a changed flag or a change time |
| `ActionRecord.ActionState.ApplySyncState` | runtime/src/ActionSet.cpp:58-105 | only the record of the given path changes, and it becomes the applied one |
| `ActionRecord.ActionState.Sync` | runtime/src/EntryPoint.cpp:2436-2459 | each of the action's paths gets its own aggregate, once; other paths are left alone |

## Left out

- NetworkReceiver.Receiver.ReassembleFrame: nothing is said of what follows an index past the end of the pending arrays, which has no defined result in the source; the model only reports it and leaves the buffer alone.
- NetworkReceiver.Receiver.OnData: retransmitted duplicates of a unit of one packet deliver it again, and the datagram that closes a rescued unit is not kept; both are in the contract and neither is judged.
- NalReassembler.HarmlessExactly: for a parity it is about the buffer; one that is not harmless does harm only if its group needs it.
- NalSender.PacketDispatch.SendNalUnit: models the UDP path; the TCP and USB record path only concatenates.
- StreamReconfigure.RetriesBounded: a send is known by the clock reading taken before the lock; when it leaves is not modelled, only how often (StreamReconfigure.SendsBounded).
- StreamReconfigure.StreamConfig.RequestUpdate: the choice of scale and layout that leads to a request is a parameter, and so is the layout built again when the ack arrives.
- SessionObject.SessionHandle.EndFrame: the validation and compositing of layers are one flag.
- SessionLifecycle.EventsAreAWalk: Shutdown ends the run.
- SessionObject.SessionHandle.WaitFrame: the 32-bit waited-frame counter is unbounded.
- FrameGrid.ReleaseRateBounded: for a fixed period greater than zero; a refresh rate above 1 GHz gives zero.
- Swapchain.SwapchainImages.ReleaseImage: the capture of a static image after the lock is not modelled.
- SpacePose.LocateSpace: the base orientation must not be the zero quaternion, which glm divides by; overflow to infinity and the checks for it have no counterpart over the reals. The square root that normalizes a quaternion is given by the caller.
- TrackingHistory.Receiver.StorePacket: quaternion canonicalisation, packet and drop counters and the prediction that reads the history.
- EncoderIpc.Socket.RecvAll: a read that would block waits in the source; here a script that ends, or a stream that does, stands for a peer that is gone.
- EncoderIpc.SignedRoundTrip: doubles travel as their 64 bits, which are a field like any other.
- JsonText.EscapeReadsBack: bytes of invalid UTF-8 pass through unchanged, so they read back here although strict readers refuse them.
- Header serialization of video packets: the wire record is a value with the fields of the header.
- The receiver's flat slot buffer: a list of 1400-byte slots.
- Sockets, threads, logging, telemetry, configuration reload and the encoder: only the steps that the proofs speak of.
- Interaction-profile selection and the choice of which bindings are visited: the aggregation takes the list visited.
- Foveation sizing, pose prediction, gestures and overlay projection: their claims rest on rounding or trigonometry.
- Admission of a WiFi and a USB client at once: the check and the later write are separate steps on two threads, and a one-owner theorem would need an atomicity the code does not have.

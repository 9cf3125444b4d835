# Babel3: transport reliability, audio and text splitting, in Dafny

This project models the parts of Babel3 that must not lose, repeat or reorder anything, and proves what they keep.

- **Reliability protocol** (`browser/js/reliable.js`). `Codec`, `Crc32`, `Crc32Bursts` and `PayloadChecksum` model the binary
  frames. `Channel` gives one end of the protocol as functions on its state, `Reliable.ReliableChannel` is the object whose
  methods update that state in place and are proved to do what those functions say. `Messages` treats fragmentation,
  `SendBuffer` every run of one end over any events and any received bytes, `ReorderBuffer` the receiver. `Network` joins two
  ends by a network that drops, duplicates, reorders and damages packets on any mix of transports, and `Convergence` proves
  that one replay brings a receiver up to date. `Fragmenting`, `Replaying`, `Reporting` and `WireFormat` say exactly what
  goes on the wire. `FailingRuns` holds runs on which documented claims fail.
- **Connection manager** (`browser/js/reliable.js`). `Transports` gives the events of `ReliableMultiTransport` as functions,
  `TransportSafety`, `TransportHandles`, `TransportOpenings`, `OpeningRuns`, `TransportWatch` and `TransportModes` prove what
  every run keeps, `Sessions` what the manager does to the channel, `MultiTransport.ReliableMultiTransport` is the object.
- **Numeric code** (`browser/js/voice-play.js`). `ComplexNumbers` and `Fft` prove the in-place transform against the Fourier
  sum, `MatrixInverse` the Gauss-Jordan inverse, `TrailingVote` and `TrailingTrim` the vote, the trim and the fade.
- **Splitters**. `DataChannel` (`browser/js/gpu.js`), `QuietCut`, `VoiceRecord` (`browser/js/voice-record.js`),
  `StreamServer` (`gpu-worker/local_server.py`), `SentenceSplit`, `SentenceShape`, `SentenceMerging`, `SentenceSpaces`,
  `SentenceCuts` and `SentencePrograms` (`gpu-worker/handler.py`, `browser/js/voice-play.js`) prove that what is cut up
  comes out whole.

An *epoch* is a stretch of a run without a ws open, a reset or a Resume that resets something. Within an epoch the network
is the set of all packets ever sent: any of them may arrive at any time, any number of times, or never.

## Where code and documentation differ

The model follows the code. Where a documented claim fails, a lemma says when.

- `README.md:72`, "everything after that replays automatically. No data lost": `SendBuffer.ResumeReplaysAll` and
  `Network.WsOpenForgets` give the exact conditions. A ws open throws the send buffer away, best-effort frames are not
  replayed, and a buffer that does not reach down far enough is dropped. `FailingRuns` reaches such states from new channels.
- `browser/js/reliable.js:313-315` takes the stale branch for a remote end that is behind; it also runs for one that is fully
  caught up when the send buffer is empty, and then overwrites the inbound counter: `SendBuffer.ResumeKeepsInbound`,
  `SendBuffer.CaughtUpPeerLosesFrames`, `FailingRuns.CaughtUpPeerReached`.
- The resume resets assign `_chunkBuffer`, which nobody reads, and leave the chunk assembly as it is. That is harmless if the
  first frame handed up afterwards begins a message (`Messages.PrefixDelivers` holds for any assembly to start from). A stale
  reset that moves the inbound counter into the middle of a message puts the leftover in front of the pieces that follow:
  `Messages.SetDownInside` says what is delivered, and that it is the message exactly when the leftover is the pieces before.
- `plugins/b3/skills/b3-codebase/references/reliability-layer.md` says that the oldest critical frames are dropped under buffer
  pressure. The browser never drops an unacknowledged critical frame; the buffer grows (`SendBuffer.EveryRunContiguous`).
- `browser/js/reliable.js:563-566` says that a transport must have received a frame before it becomes active. Connecting marks
  every handle as having received, so an open handle is always eligible (`TransportSafety.OpenIsEligible`).
- `browser/js/voice-record.js:1005` speaks of the last ten seconds; the search zone is five seconds.
- "Normal" tails are trimmed too: `TrailingVote.NormalTailVote`, and exactly when, `TrailingTrim.NormalTailTrimmed`.
- `browser/js/voice-play.js:381` says that the JavaScript splitter mirrors the Python one. They return the same list exactly
  under the condition of `SentencePrograms.ProgramsAgreeExactly`. `WideTextDiffers`, `MarkedTextDiffers` and `WideEndsDiffer`
  are texts on which they do not: a wide character that the two count differently, a character that only JavaScript takes for
  white space, and a wide split character, which in JavaScript also stands for others (`JsEndsExactly`).
- `gpu-worker/local_server.py:360-363` starts a stream without forgetting what was consumed of an earlier one of the same
  name: `StreamServer.RestartSkips`, `StreamServer.RestartLoses`.

## Model

| member | source | states |
|---|---|---|
| Crc32.TableStep | browser/js/reliable.js:17-27 | one table entry does the work of eight division steps |
| Crc32.BuildTable | browser/js/reliable.js:17-27 | the table built in place holds every byte divided by the polynomial |
| Crc32.StepIsLookup | browser/js/reliable.js:31-33 | a lookup per byte is feeding the eight bits of that byte to the division register |
| Crc32.HelloChecksum | plugins/b3/skills/b3-codebase/references/reliability-layer.md:72 | the bit-serial reference gives the documented check value for "hello" |
| PayloadChecksum.Crc32Of | browser/js/reliable.js:29-35 | the table-driven loop computes the CRC-32 of section 8 of RFC 1952, for any data |
| Crc32Bursts.BurstDetected | browser/js/reliable.js:29-35 | messages of any length that differ only inside four consecutive bytes have different checksums |
| PayloadChecksum.ChecksumBurst | browser/js/reliable.js:105-106 | the same for payloads as the codec sees them |
| Codec.EncodeData | browser/js/reliable.js:50-65 | the buffer written is the 19-byte header with the checksum, followed by the payload |
| Codec.EncodeAck | browser/js/reliable.js:67-75 | the buffer written is the ack frame |
| Codec.EncodeResume | browser/js/reliable.js:77-84 | the buffer written is the resume frame |
| Codec.DecodeBytes | browser/js/reliable.js:92-116 | the decoder as written computes the decoding function, error cases included |
| Codec.DataRoundTrip | browser/js/reliable.js:50-108 | decoding inverts encoding of data frames, whatever follows the frame |
| Codec.AckRoundTrip | browser/js/reliable.js:67-111 | the same for acks |
| Codec.ResumeRoundTrip | browser/js/reliable.js:77-114 | the same for resumes |
| Codec.DecodeIsFaithful | browser/js/reliable.js:92-116 | an accepted frame re-encodes to exactly the prefix it was read from |
| Codec.DamageRejected | browser/js/reliable.js:97-106 | a data frame whose payload was altered only inside four consecutive bytes is rejected |
| Codec.HeaderUnprotected | browser/js/reliable.js:97-107 | the checksum does not cover the header: a frame with another sequence number written into it is accepted as that other frame |
| WireFormat.AckExample | browser/js/reliable.js:67-75 | an ack frame, byte by byte |
| WireFormat.ResumeExample | browser/js/reliable.js:77-84 | a resume frame, byte by byte |
| WireFormat.DataExample | browser/js/reliable.js:50-65 | a data frame with its checksum, byte by byte |
| WireFormat.DataLayout | browser/js/reliable.js:50-65 | the place of every field of any data frame |
| Reliable.ReliableChannel.constructor | browser/js/reliable.js:120-147 | a new channel starts at number one with nothing buffered |
| Reliable.ReliableChannel.Send | browser/js/reliable.js:149-181 | a payload is numbered, buffered and sent as its fragments |
| Reliable.ReliableChannel.SendOne | browser/js/reliable.js:183-200 | one frame is numbered, buffered, pressure relieved from the front, then sent |
| Reliable.ReliableChannel.RelievePressure | browser/js/reliable.js:190-197 | eviction from the front of best-effort or acknowledged frames only |
| Reliable.ReliableChannel.Receive | browser/js/reliable.js:202-213 | any bytes are decoded and dispatched, others ignored |
| Reliable.ReliableChannel.ReceiveData | browser/js/reliable.js:215-240 | duplicate, next and early frames |
| Reliable.ReliableChannel.DrainReorder | browser/js/reliable.js:226-232 | the drain loop terminates and hands up the run of waiting frames |
| Reliable.ReliableChannel.ProcessChunk | browser/js/reliable.js:243-273 | chunk tags, assembly and delivery |
| Reliable.ReliableChannel.ReceiveAck | browser/js/reliable.js:275-295 | cumulative ack, and the replay on the third duplicate |
| Reliable.ReliableChannel.HandleResume | browser/js/reliable.js:297-338 | the three branches of Resume |
| Reliable.ReliableChannel.Tick | browser/js/reliable.js:352-358 | a pending ack is sent with the window |
| Reliable.ReliableChannel.SendResume | browser/js/reliable.js:344-346 | a resume carries the contiguous count |
| Reliable.ReliableChannel.Reset | browser/js/reliable.js:368-376 | all counters and buffers are cleared |
| Reliable.ReliableChannel.OnTransportOpen | browser/js/reliable.js:743-752 | opening ws clears both directions before the resume goes out |
| Messages.SlicesCoverPayload | browser/js/reliable.js:166-179 | the pieces of a payload make up the payload |
| Messages.ProcessFragments | browser/js/reliable.js:149-181 | any number of the fragments of one payload deliver nothing before the last, which delivers the payload |
| Messages.PrefixDelivers | browser/js/reliable.js:243-273 | from any prefix of the numbered frames exactly the complete posts are delivered, byte for byte, and the assembly holds the pieces of the unfinished one |
| Messages.NumberedTagged | browser/js/reliable.js:269-272 | no frame that send makes takes the unknown-tag branch |
| Messages.SetDownInside | browser/js/reliable.js:243-273 | a receiver set down inside a message delivers what it still holds followed by the rest, the message itself if and only if it holds exactly the pieces before |
| Fragmenting.FragmentsFit | browser/js/reliable.js:157-180 | one frame if and only if the payload fits, otherwise its length divided by the frame size rounded up; every frame but the last is full |
| Fragmenting.TagExamples | browser/js/reliable.js:160-171 | the tags of the frames of four payloads |
| Fragmenting.SendPackets | browser/js/reliable.js:149-200 | every packet of a send is at most 20 bytes longer than a frame may be and decodes to its fragment under the next number, with the priority and the low 32 bits of the clock |
| Fragmenting.UntaggedDelivered | browser/js/reliable.js:243-272 | a frame without a known tag is delivered whole, an empty one not at all |
| SendBuffer.EvictDropsFront | browser/js/reliable.js:190-197 | what eviction drops, and why it stops |
| SendBuffer.TrimKeepsAbove | browser/js/reliable.js:278-280 | trimming keeps exactly what is above the acknowledged number |
| SendBuffer.EveryRunContiguous | browser/js/reliable.js:183-200 | after any events with any bytes received the send buffer is a run of consecutive numbers ending at nextSeq-1, and a send leaves it within bounds or headed by an unacknowledged frame worth keeping |
| SendBuffer.ResumeResynchronises | browser/js/reliable.js:297-338 | after any Resume(n) the last ack is n and the buffer holds exactly n+1 to nextSeq-1 |
| SendBuffer.ResumeReplaysAll | browser/js/reliable.js:313-333 | a Resume(n) replays one frame for every number above n if and only if the buffer reaches down to n+1 and holds only critical frames above n |
| SendBuffer.ResumeKeepsInbound | browser/js/reliable.js:303-325 | the next inbound frame is still taken after a Resume if and only if no reset branch moved the inbound counter |
| SendBuffer.CaughtUpPeerLosesFrames | browser/js/reliable.js:316-325 | a caught-up peer's Resume(n) to an end with an empty buffer makes it skip the peer's frames up to n |
| Replaying.ReplayExactly | browser/js/reliable.js:285-292 | for every buffer the replay has as many packets as there are critical entries above n, each behind those of the earlier ones |
| Replaying.ReplayOnlyDue | browser/js/reliable.js:327-333 | and no other packet |
| Replaying.LackingReplayed | browser/js/reliable.js:275-333 | at any moment of an epoch a normal Resume(n) or third duplicate Ack(n) puts every critical frame that the peer lacks on the wire, whatever lies between them, and nothing but critical frames above n |
| Replaying.CountsRepeats | browser/js/reliable.js:282-286 | in any run the counter is the number of repeated acks since the last that went on, modulo three |
| Replaying.EveryThirdReplays | browser/js/reliable.js:275-295 | in any run an ack makes the channel send if and only if it is the third, sixth, ... repeat; it then replays |
| Reporting.TickReports | browser/js/reliable.js:352-358 | in any run a tick sends one ack if data came in since the last tick or reset, with the contiguous count and the room left, and nothing otherwise |
| Reporting.ResetForgets | browser/js/reliable.js:303-376 | nothing that waited before a reset, ws open or reset branch of Resume is handed up afterwards |
| Reporting.ResetIsNew | browser/js/reliable.js:368-376 | a reset channel is a new one but for the duplicate count; after a ws open also but for the chunk assembly and a due ack |
| ReorderBuffer.DrainTakesRun | browser/js/reliable.js:226-232 | draining hands up the next frames without a gap and stops at the first missing one |
| ReorderBuffer.AcceptStep | browser/js/reliable.js:215-240 | one honest frame adds exactly its number to those seen, and what is handed up continues the sequence |
| ReorderBuffer.CounterIsLargestPrefix | browser/js/reliable.js:222-232 | the counter is the largest k with everything up to k received |
| ReorderBuffer.Confluence | browser/js/reliable.js:215-240 | state and frames handed up depend only on the set of honest frames that arrived |
| ReorderBuffer.ArrivalState | browser/js/reliable.js:215-240 | from a fresh receiver: the counter, what waits above it, and that the next frame never waits |
| Network.StepKeepsInv | browser/js/reliable.js:183-358 | every step of an epoch keeps both directions of the joint sender, receiver and network invariant |
| Network.NewChannelsStart | browser/js/reliable.js:120-147 | two new channels begin an epoch |
| Network.LinkDelivers | browser/js/reliable.js:215-273 | frames are handed up as a prefix of those numbered, messages delivered as a prefix of those posted |
| Network.LinkLosesNothing | browser/js/reliable.js:183-200 | every frame that is not best-effort has been handed up or is still buffered |
| Network.NeverAhead | browser/js/reliable.js:303-311 | in an epoch an honest report never takes the ahead branch |
| Network.UnknownTagUnreachable | browser/js/reliable.js:269-272 | in an epoch no frame handed up takes the unknown-tag branch |
| Network.EpochSafety | browser/js/reliable.js:149-358 | over any schedule of an epoch, in both directions: in order, no gap, each once, byte for byte, nothing lost |
| Network.ReconnectStarts | browser/js/reliable.js:743-752 | a new connection at both ends begins an epoch, whatever the chunk assemblies hold, and the resume it sends is an event of that epoch |
| Network.EveryEpochSafe | browser/js/reliable.js:149-358 | safety at any moment of a run of any number of epochs |
| Network.WsOpenForgets | browser/js/reliable.js:743-749 | a ws open loses nothing if and only if everything buffered is best-effort or already handed up |
| FailingRuns.WsOpenLosesFrame | browser/js/reliable.js:743-749 | a run after which a ws open loses a critical message |
| FailingRuns.CaughtUpPeerReached | browser/js/reliable.js:316-325 | a run of two ends after which the Resume of the caught-up one makes its own message be skipped |
| FailingRuns.BestEffortNotReplayed | browser/js/reliable.js:327-333 | a run after which a normal Resume does not replay all that is missing |
| Convergence.ReplayIsMissingSuffix | browser/js/reliable.js:275-333 | a normal resume or third duplicate ack at n re-emits exactly n+1 to nextSeq-1 when these are critical |
| Convergence.SuffixTaken | browser/js/reliable.js:215-240 | any arrival that includes the missing frames hands up the missing suffix once |
| Convergence.ReplayConverges | browser/js/reliable.js:275-358 | one replay, its frames in any order and repeated, delivers every post, and the next ack empties the send buffer |
| Convergence.ChannelConfluence | browser/js/reliable.js:215-273 | the receiver's whole state and its deliveries depend only on the set of honest frames |
| TransportSafety.StepKeepsInv | browser/js/reliable.js:492-797 | every event of the connection manager keeps its invariant |
| TransportSafety.NeverStrandedNeverDoubled | browser/js/reliable.js:594-709 | in every reachable state an allowed transport other than rtc has exactly one of a handle and a reconnect timer, and no transport has both |
| TransportSafety.BackoffAndWarnings | browser/js/reliable.js:668-790 | every reconnect delay is min(1000 * 2^k, 30000), k counting those since the transport was last stable, and onconnectfail is due exactly at the third loss since then |
| TransportSafety.BestIsBest | browser/js/reliable.js:567-585 | the active transport is the first of the best eligible ones |
| TransportSafety.OpenIsEligible | browser/js/reliable.js:563-632 | in every reachable state an open handle is eligible |
| TransportSafety.LateCloseOrphans | browser/js/reliable.js:639-666 | a close callback drops a handle other than its own if and only if another one has taken its slot |
| TransportSafety.LateCloseExample | browser/js/reliable.js:492-686 | a run in which a late close drops the live second handle |
| TransportHandles.OneLiveHandle | browser/js/reliable.js:639-709 | when every close() calls back at once and no handle closes twice, in every reachable state a transport has at most one live handle, the one held, and no close drops another |
| TransportSafety.DestroyThenLateClose | browser/js/reliable.js:533-546 | destroy leaves nothing connected or waiting; a close arriving later starts a reconnect exactly if its transport is allowed |
| OpeningRuns.StepLogs | browser/js/reliable.js:603-797 | a step opens exactly the handles that connect() returns open or that the poll finds open; each opening resets the channel if and only if it is of ws, and sends one resume; a change of mode sends one more |
| TransportWatch.HandlesWatched | browser/js/reliable.js:691-728 | in every run no handle opens twice, a connection counts as stable only while it stands open, a held handle has opened, is polled or was found closed, and its stability timer runs exactly while it stands open |
| TransportModes.OnlyAllowedHeld | browser/js/reliable.js:492-509 | in every reachable state only transports that the mode allows are held |
| TransportModes.RtcFollowsBlock | browser/js/reliable.js:606-609 | while rtc is blocked no timer or check connects it; once it is not, the check leaves it connected or waiting |
| TransportModes.WithKeepsOrder | browser/js/reliable.js:708 | a transport that is held keeps its place when it is connected again, another one goes last |
| Sessions.StepDrives | browser/js/reliable.js:634-759 | the log of a step makes the channel do a ws open for every ws handle that opens, a resume for every other and for a change of mode, and take in the data that arrives |
| Sessions.OnlyWsEndsSession | browser/js/reliable.js:742-752 | a step that passes no data clears the channel if and only if it opens a ws handle and otherwise leaves it as it was; every opening sends exactly one resume, and from a ws opening on it reports nothing received |
| Sessions.SessionFollowsScript | browser/js/reliable.js:634-759 | over every run of manager and channel, the channel goes through one run of its own that starts over exactly where a ws handle opens |
| Sessions.SessionContiguous | browser/js/reliable.js:183-200 | after any such run the send buffer is a consecutive run of numbers ending at the last one |
| MultiTransport.ReliableMultiTransport.constructor | browser/js/reliable.js:403-446 | all allowed transports are connected |
| MultiTransport.ReliableMultiTransport.SetAllowedTransports | browser/js/reliable.js:492-509 | disallowed transports go, newly allowed ones are connected, a resume is sent |
| MultiTransport.ReliableMultiTransport.Destroy | browser/js/reliable.js:533-546 | every handle and timer goes |
| MultiTransport.ReliableMultiTransport.ActiveName | browser/js/reliable.js:567-585 | the loop finds the best transport |
| MultiTransport.ReliableMultiTransport.ConnectAllowed | browser/js/reliable.js:594-600 | connects every idle allowed transport |
| MultiTransport.ReliableMultiTransport.ConnectTransport | browser/js/reliable.js:603-709 | block check, mode, definition, failed and successful connects |
| MultiTransport.ReliableMultiTransport.OnClose | browser/js/reliable.js:639-688 | slot dropped, failure counted, reconnect scheduled if allowed |
| MultiTransport.ReliableMultiTransport.OnTransportOpen | browser/js/reliable.js:712-759 | stability timer started, ws reset before the resume |
| MultiTransport.ReliableMultiTransport.DisconnectTransport | browser/js/reliable.js:762-774 | handle closed and dropped, timer cleared |
| MultiTransport.ReliableMultiTransport.ScheduleReconnect | browser/js/reliable.js:777-790 | one timer at most, backoff doubled up to the limit |
| MultiTransport.ReliableMultiTransport.OnTimer | browser/js/reliable.js:784-789 | a timer that runs out connects if still allowed |
| MultiTransport.ReliableMultiTransport.OnStable | browser/js/reliable.js:725-728 | five stable seconds clear backoff and failures |
| MultiTransport.ReliableMultiTransport.OnPoll | browser/js/reliable.js:695-705 | the open check |
| MultiTransport.ReliableMultiTransport.OnMessage | browser/js/reliable.js:634-637 | data refreshes its handle and goes to the channel |
| MultiTransport.ReliableMultiTransport.CheckRtcBlock | browser/js/reliable.js:793-797 | rtc is connected when unblocked and idle |
| Fft.RevInvolution | browser/js/voice-play.js:257-265 | bit reversal undoes itself |
| Fft.IncrementIsNext | browser/js/voice-play.js:258-260 | the carry loop from the top bit gives the reversal of the next index |
| Fft.NextReversed | browser/js/voice-play.js:258-260 | the inner loop computes that carry |
| Fft.Permute | browser/js/voice-play.js:256-266 | the in-place swaps put every sample at its bit-reversed index |
| Fft.UnscrambleInverts | browser/js/voice-play.js:256-266 | interleaving halves recursively restores the order of the samples |
| Fft.MergeBlock | browser/js/voice-play.js:273-282 | the butterflies of one block, nothing else changed |
| Fft.MergeIsDft | browser/js/voice-play.js:273-282 | two half-size transforms merge into the transform of the interleaved samples |
| Fft.Stage | browser/js/voice-play.js:268-284 | one stage turns all blocks of one size into transforms of twice the size |
| Fft.Transform | browser/js/voice-play.js:254-285 | for every power-of-two length the arrays end as the Fourier sums of their first contents |
| ComplexNumbers.EvalIsFourierSum | browser/js/voice-play.js:252-285 | evaluating the samples as a polynomial at a power of the root is the textbook Fourier sum |
| ComplexNumbers.EvalInterleave | browser/js/voice-play.js:252-285 | a polynomial splits into its even and odd part in the squared argument |
| MatrixInverse.StepConsistent | browser/js/voice-play.js:342-355 | swap, scaling and elimination keep left half = right half times input |
| MatrixInverse.StepUndone | browser/js/voice-play.js:342-355 | every step can be undone |
| MatrixInverse.InvertIsInverse | browser/js/voice-play.js:333-364 | what is returned is the two-sided inverse of the input |
| MatrixInverse.NullExactly | browser/js/voice-play.js:348 | null is returned if and only if the matrix is singular or a pivot is below the threshold without being zero |
| MatrixInverse.SingularHasNoInverse | browser/js/voice-play.js:348 | a matrix with a dependent column has no left inverse |
| MatrixInverse.TinyPivotRefused | browser/js/voice-play.js:348 | an invertible matrix that is refused |
| MatrixInverse.FindPivot | browser/js/voice-play.js:344-347 | the first row of largest magnitude in the column |
| MatrixInverse.Eliminate | browser/js/voice-play.js:350-356 | the pivot row is divided, its multiples subtracted from all others, in place |
| MatrixInverse.InvertMatrix | browser/js/voice-play.js:333-364 | the code on row arrays gives an inverse, or null exactly when NullExactly says so |
| TrailingVote.VoteIsDeepest | browser/js/voice-play.js:575-605 | for any flags the vote is a tail frame, that of one window size, and no size goes deeper |
| TrailingVote.CandidateExactly | browser/js/voice-play.js:583-604 | a window size trims half a window before the end of the last window of the tail with a majority of normal frames, or at the end of the body when there is none |
| TrailingVote.VoteExactly | browser/js/voice-play.js:577-605 | the vote is the deepest of the trims at five, ten and twenty frames |
| TrailingVote.NormalTailVote | browser/js/voice-play.js:575-605 | a tail without anomalies loses its last ten frames, all of itself when shorter than twenty |
| TrailingTrim.BodyKept | browser/js/voice-play.js:614-643 | the body is untouched, nothing is added, no sample grows in magnitude |
| TrailingTrim.TrimmedExactly | browser/js/voice-play.js:614-643 | the cut is 80 ms behind the last frame kept; with 100 ms behind the cut at most 150 ms of them are faded and the rest is dropped, otherwise nothing changes |
| TrailingTrim.WorthExactly | browser/js/voice-play.js:614-625 | trimming happens exactly when nine more frames, and a few samples at odd rates, follow the last frame kept |
| TrailingTrim.NormalTailTrimmed | browser/js/voice-play.js:614-643 | audio with an entirely normal tail is cut and faded if and only if it has room for it: at rates divisible by fifty, if and only if the tail has at least ten frames |
| TrailingVote.FindTrimFrame | browser/js/voice-play.js:577-605 | the three backward scans compute the vote |
| TrailingTrim.TrimTrailingAudio | browser/js/voice-play.js:614-643 | the trimmed and faded copy, or the input |
| DataChannel.SendFramed | browser/js/gpu.js:1466-1546 | the frames sent, single or chunked |
| DataChannel.FramesFit | browser/js/gpu.js:1475-1506 | every frame is at most 16384 bytes and every chunk carries data |
| DataChannel.FramesExactly | browser/js/gpu.js:1466-1546 | one frame up to 16379 bytes, otherwise the length divided by 16370 rounded up, each chunk with its length, index, count, type and bytes |
| DataChannel.ChunkArrives | browser/js/gpu.js:1216-1222 | a chunk frame is received as the piece it was made from |
| DataChannel.IncompleteHeld | browser/js/gpu.js:1224-1231 | with a chunk missing nothing comes out, in any order with duplicates |
| DataChannel.MessageReassembled | browser/js/gpu.js:1224-1247 | the bytes and type sent come out exactly once, on the last distinct chunk |
| DataChannel.SentArrives | browser/js/gpu.js:1190-1546 | the frames of a message of any size, received in order, deliver it once |
| DataChannel.DependableExactly | browser/js/gpu.js:1224-1226 | messages of n chunks come out as sent if and only if no leftover of n chunks is around, whatever its type |
| DataChannel.LateDuplicate | browser/js/gpu.js:1224-1242 | a chunk repeated after completion leaves such a leftover |
| DataChannel.Reassembler.OnMessage | browser/js/gpu.js:1190-1248 | one binary message in any state |
| DataChannel.Reassembler.Assemble | browser/js/gpu.js:1233-1240 | the parts are copied one after another |
| QuietCut.FindQuietest | browser/js/voice-record.js:951-957 | the scanning loop finds the cut |
| QuietCut.CutIsQuietest | browser/js/voice-record.js:946-958 | the cut is the middle of a scanned window and no scanned window is quieter |
| QuietCut.CutIsFirstQuietest | browser/js/voice-record.js:951-957 | the first of the quietest windows decides |
| QuietCut.EnergyIsSum | browser/js/voice-record.js:952-954 | the energy is the sum of squares |
| VoiceRecord.CutInside | browser/js/voice-record.js:946-958 | a cut is inside the samples if and only if they fill half a window |
| VoiceRecord.CutInLastSeconds | browser/js/voice-record.js:946-958 | the cut is the middle of the first quietest 300 ms window among those that start in the last five seconds, a third of a window apart |
| VoiceRecord.ConservedExactly | browser/js/voice-record.js:981-1015 | segments and remainder are the whole recording if and only if no flush cut past the end of what it had while more followed |
| VoiceRecord.OverrunExample | browser/js/voice-record.js:1015 | a recording that loses a sample |
| VoiceRecord.VoiceRecorder.OnDataAvailable | browser/js/voice-record.js:1615-1621 | the recorder's non-empty chunks are collected |
| VoiceRecord.VoiceRecorder.FindQuietestCutSample | browser/js/voice-record.js:946-958 | the zone, window and step of the search |
| VoiceRecord.VoiceRecorder.FlushAndSplitSegment | browser/js/voice-record.js:981-1018 | one flush |
| VoiceRecord.VoiceRecorder.FinishRecording | browser/js/voice-record.js:2246-2264 | the remainder at the end |
| StreamServer.CutBounds | gpu-worker/local_server.py:421-432 | a server cut lies strictly inside the new samples |
| StreamServer.CutInLastSeconds | gpu-worker/local_server.py:421-432 | the same for windows of 4800 samples, 1600 apart, in the last ten seconds |
| StreamServer.PartialExactly | gpu-worker/local_server.py:380-448 | when a partial sends something, and what |
| StreamServer.UncutHeard | gpu-worker/local_server.py:510-542 | without a partial since the start the pre-roll and the whole recording are heard |
| StreamServer.HeardBehindLead | gpu-worker/local_server.py:410-505 | with a pre-roll in front, the two are heard up to the first cut and then the recording from the same count on, up to a tail of at most 1599 samples |
| StreamServer.ChunksSinceStart | gpu-worker/local_server.py:360-374 | a stream holds the chunks that have come in since its start, in order |
| StreamServer.LatestPreroll | gpu-worker/local_server.py:366-369 | the latest pre-roll counts until the stream is finalized |
| StreamServer.FinalizeForgets | gpu-worker/local_server.py:464-469 | after a finalize all goes on as if nothing had been before |
| StreamServer.TailOnlyDropped | gpu-worker/local_server.py:376-505 | without pre-roll any run's jobs give the recording, from the sample due at its start on, up to a tail of at most 1599 samples |
| StreamServer.ConservedExactly | gpu-worker/local_server.py:360-505 | after a partial, pre-roll and recording are heard in full if and only if nothing had been consumed before the last start, no pre-roll was put in front and the rest is not a short one |
| StreamServer.RestartSkips | gpu-worker/local_server.py:360-363 | a restarted stream skips exactly what had been consumed before the restart |
| StreamServer.PrerollLoses | gpu-worker/local_server.py:395-448 | a run with a pre-roll that is not heard in full |
| StreamServer.RestartLoses | gpu-worker/local_server.py:360-363 | a run with a restart whose recording is not heard in full |
| StreamServer.AudioStreams.OnStart | gpu-worker/local_server.py:360-363 | a start clears the chunks and keeps what was consumed |
| StreamServer.AudioStreams.OnPreroll | gpu-worker/local_server.py:366-369 | the pre-roll is kept |
| StreamServer.AudioStreams.OnChunk | gpu-worker/local_server.py:371-374 | chunks are collected for started streams |
| StreamServer.AudioStreams.OnPartial | gpu-worker/local_server.py:376-461 | decode, cut, send, count as consumed; other streams untouched |
| StreamServer.AudioStreams.OnFinalize | gpu-worker/local_server.py:464-560 | the job for the rest; the stream is forgotten, others untouched |
| SentenceSplit.ChunksJoin | gpu-worker/handler.py:1167-1183 | joined with spaces, the chunks are the sentences in order |
| SentenceSplit.InkKept | gpu-worker/handler.py:1150-1183 | every character that is not white space is in the chunks, once and in order |
| SentenceSplit.ChunksReach | gpu-worker/handler.py:1158-1181 | every chunk reaches the minimum whenever there is more than one |
| SentenceSplit.ChunksEndWell | gpu-worker/handler.py:1164-1165 | every chunk but the last ends with a split character |
| SentenceShape.SentencesUnbroken | gpu-worker/handler.py:1164-1165 | no sentence holds a split character followed by white space |
| SentenceShape.MergedIsGreedy | gpu-worker/handler.py:1167-1176 | a chunk takes in sentences until it reaches the minimum and no further |
| SentencePrograms.ProgramsReach | browser/js/voice-play.js:388-401 | in both programs every chunk reaches the minimum, by the program's own count, whenever there is more than one |
| SentenceMerging.AgreeExactly | gpu-worker/handler.py:1167-1181 | pieces cut in all places (JavaScript) and only in some of them (Python) end as the same chunks if and only if the two programs never decide differently, or the difference heals |
| SentenceMerging.OneChunkExactly | gpu-worker/handler.py:1167-1181 | sentences end as one chunk if and only if no place leaves the minimum on both sides |
| SentenceCuts.SameJoinSameSentences | gpu-worker/handler.py:1164-1170 | when the sentences under two ideas of white space, the second with more split characters, join to the same text, then the white space made no difference and the first sentences are the second ones put together except at their shared cuts |
| SentencePrograms.JsEndsExactly | browser/js/voice-play.js:385-386 | without the u flag JavaScript cuts after the split characters and after every wide character with the last ten bits of a wide one among them |
| SentencePrograms.ProgramsAgreeExactly | browser/js/voice-play.js:381-402 | for every text, split characters and minimum, both programs return the same list if and only if there are split characters and: their sentences join to the same text and merging never decides differently or heals, or the text is blank for one program and comes out of the other whole |
| SentencePrograms.BlankAgreesExactly | browser/js/voice-play.js:387-401 | when no split character is white space, a text blank for one program is returned alike if and only if the other finds it blank or without white space at its ends |
| SentencePrograms.ProgramsAgree | browser/js/voice-play.js:381-402 | with a minimum given, both programs cut a text of basic-plane characters and common white space into the same chunks |
| SentencePrograms.ZeroAgreesExactly | browser/js/voice-play.js:384 | with zero, on a text whose white space and split characters both see alike, they agree if and only if merging at the JavaScript default changes nothing |
| SentencePrograms.WideTextDiffers | browser/js/voice-play.js:392-400 | a text with a wide character that they cut differently |
| SentencePrograms.MarkedTextDiffers | browser/js/voice-play.js:387-388 | a text with a byte order mark that they cut differently |
| SentencePrograms.WideEndsDiffer | browser/js/voice-play.js:385-386 | a text that JavaScript cuts after a character that only shares its last unit with a split character |
| SentenceSplit.MergeShort | gpu-worker/handler.py:1168-1176 | the merging loop |
| SentencePrograms.PySplitSentences | gpu-worker/handler.py:1150-1183 | the Python splitter, with the error it raises without split characters |
| SentencePrograms.JsSplitSentences | browser/js/voice-play.js:382-402 | the JavaScript splitter, with its defaults for split characters and minimum |

## Left out

- Reliable.ReliableChannel.constructor: the `config.x ||` defaults are not modelled; the buffer size is any number and the frame size at least one.
- Reliable.ReliableChannel.Send: takes bytes; the conversion of strings and other buffers before it is not modelled.
- Reliable.ReliableChannel.ProcessChunk: every delivery is recorded; the case of no `onmessage` callback is not modelled.
- Network.EpochSafety: damage in the network is limited to four consecutive payload bytes, the damage the checksum is proved to reject, since damage to the header can make another valid frame (`Codec.HeaderUnprotected`); sequence numbers stay below 2^32.
- Network.EveryEpochSafe: nothing sent before a new connection arrives after it; frames still under way on another transport are not modelled.
- MultiTransport.ReliableMultiTransport.constructor: handles put into place from outside (`browser/js/rtc.js`, `browser/js/ws.js`) are not modelled, nor callbacks that call back into the manager.
- MultiTransport.ReliableMultiTransport.ConnectTransport: handle objects are identities with their fields kept in a map, so aliasing between handles is not modelled; nor are the `ontransportchange` call and the transport that carries the first resume.
- MultiTransport.ReliableMultiTransport.OnClose: the `ondisconnect` and `ontransportchange` calls and the disconnect telemetry are not modelled.
- MultiTransport.ReliableMultiTransport.OnTransportOpen: `onconnect` is logged but calls nothing back; the `ontransportchange` call is not modelled.
- Fft.Transform: exact complex numbers; the cosine and sine of each stage are a parameter required to be exact roots of unity, and rounding is not modelled.
- MatrixInverse.InvertMatrix: exact reals instead of floating point.
- TrailingTrim.TrimTrailingAudio: the anomaly flags, the end of the body and the fade curve are parameters; the features, clusters and distances behind them are not modelled.
- QuietCut.FindQuietest: windows are compared by sums of squares, which orders windows of equal length as their root mean squares do.
- VoiceRecord.VoiceRecorder.FlushAndSplitSegment: each flush is atomic; the 16-bit WAV encoding of a segment is not modelled.
- StreamServer.AudioStreams.OnPartial: the decoder is a parameter; the 16-bit encoding and the job queue are not modelled.
- DataChannel.Reassembler.OnMessage: text messages, pings and pongs have no effect here; the handlers behind them are not modelled.
- SentencePrograms.ProgramsAgreeExactly: says nothing about split characters with a hyphen between others, which Python escapes.
- SentencePrograms.JsSplitSentences: the split characters are a set; a hyphen between others, which JavaScript alone reads as a range, is not modelled, and texts have no unpaired surrogates.
- The Rust peer is not part of this model; both ends are the browser's channel.
- Sockets, RTCPeerConnection, signalling, fetch, polling and the FastAPI plumbing: input and output behind the events modelled here.
- Timers, telemetry, logging, upstream health and status text: a timer is an event that may happen at any time.
- Encryption in `browser/js/daemon-ws.js`: foreign algorithms.
- The reassembler in `browser/js/rtc.js`: the same code as in `browser/js/gpu.js`.
- Worker pools, billing, audio lock, LED strip, layout, terminal and file views: single-branch facts.

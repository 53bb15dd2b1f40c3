# FlexBraid data plane, in Dafny

FlexBraid is a multi-WAN tunnel. Its data plane is a chain of small lock-protected state machines, and this
project models that chain and proves what it keeps over every run. Each mutex-held method is one atomic step;
time is an argument; floating-point quantities are reals; the Reed–Solomon library is a parameter that is used
only through its erasure contract (any k of the k+p shards determine the rest), which a bytewise XOR code is
shown to satisfy.

How the modules build on each other:

- `Bytes`, `Buffers`, `Sorting`, `Xors`, `Modular`: bytes, buffers filled in place, in-place sorting, exclusive or,
  remainders.
- `Erasure`, `Frames`, `FecBlock`, `FecSizing`, `ParityMtu`: the library's contract, frames, the self-describing parity
  sub-header, how much parity is sent, and whether it fits the path.
- `FecEncoder`, `FecEncoderLaws`, `FecEncoderObject`: the encoder's steps and runs; what each event of a run emits and
  when coding switches, told from the events alone; and the object with its loops.
- `FecDecoder`, `FecAssembly`, `FecReassembly`, `FecRuns`, `FecDecoderRuns`: the decoder's steps; what a buffer
  holds; the abstraction in which every block is open or done; its runs; and decoder runs over any frames and over
  honest traffic, which follow that abstraction.
- `FecRoundTrip`, `FecHolding`, `FecAnyFrames`, `FecBooks`, `FecCache`, `FecWitness`, `FecDecoderObject`: which step of
  a decoder run hands a block on; what a decoder holds until then; what it keeps on any frames; the loss books; the
  cache of codes; concrete runs on which promises fail; and the object with its loops.
- `PathLedger`, `LedgerLaws`, `PathStats`: raw per-path loss from pass-through counters, when a counter is booked and as
  what, and that a decoder's counters are such a ledger.
- `SmoothWrr`, `Ring`, `Scheduler`, `Fairness`, `Survival`: round-robin arithmetic, consistent hashing, the scheduler
  object, what its picks give each path, and what codec and scheduler together say about losing a whole WAN.
- `ReplayWindow`, `Delivery`, `DeliveryClock`, `DeliveryObject`, `Sender`, `Pipeline`, `PipelineClock`, `HeadOfLine`,
  `Receiver`: the replay bitmap; the delivery buffer on true numbers, its timing, and on 32-bit numbers; what an encoder
  puts on the wire; the receive path end to end, its timing, what holds it up; and that path as composed objects.
- `Admission`, `Progress`, `Timeliness`, `Completeness`, `AccountedWitness`: which frames get past the replay window,
  what becomes of each of them, when a decoder is too late for one, what that makes of every payload given to the peer's
  encoders, and a session that meets all hypotheses of that result.
- `SendQueue`, `TokenBucket`, `WanSender`, `Health`, `HealthLaws`: the bounded queue, its pacing, the loop that joins
  them, the circuit breaker, and when it changes state, told from the events alone.
- `Checksum`, `FrameWire`, `FakeTcp`, `IcmpEcho`, `Wire`: wire images and their checksums (sections 1 and 2 of
  RFC 1071, section 3.1 of RFC 791, section 3.1 of RFC 9293, the Echo message of RFC 792).

Where a comment in the source promises more than the code does, the model follows the code, a lemma gives an input
on which the promise fails, and another says exactly when it holds:

- "Never twice in a row" for the round-robin holds exactly when the largest weight is shared
  (`SmoothWrr.NeverTwiceIffTopShared`, `SmoothWrr.UnequalPairRepeats`).
- The bound of the delivery buffer is left exactly when a full buffer meets a frame lower than all it holds
  (`Delivery.BoundLeftIff`, `Delivery.BoundExceeded`).
- The delivery tick keeps its invariant exactly when the lowest waiting number is not 0 on the wire
  (`DeliveryObject.DeliveryBuffer.Tick`, and `DeliveryObject.StuckAfterWrap` for a run that gets there).
- "Any k of k+p frames" rebuild a block exactly when no block of its stream with its number or a later one was
  flushed before its first frame (`FecRoundTrip.HandedOnIffNotBarred`; in `FecWitness.EarlierBlockLost` every frame
  arrives and a block is lost), and exactly when the code cached for its parity count was made for its k
  (`FecCache.RebuiltIff`, `FecWitness.SecondShapeStalls`; with one k the cache is invisible,
  `FecCache.CacheIsInvisible`).
- "If next has been missing for the gap timeout" a tick of the delivery buffer skips the hole: it skips it exactly when
  something has waited without a break for the timeout (`DeliveryClock.TickReleasesIff`), so the hole itself was given
  the timeout when next has not moved since, and otherwise exactly when next last moved that long before
  (`DeliveryClock.HoleGivenTimeIff`; in `DeliveryClock.HoleSkippedEarly` it was given a twentieth of it).
- Not every pushed payload whose frames all arrive reaches the inner peer. It does, or is evicted by a full buffer,
  unless a delivery tick passed its number before it came or its decoder block was closed when it came
  (`Completeness.EveryPushAccounted`, `Progress.FrameFate`; a block is closed by a tick past its deadline or by a later
  block, `Timeliness.FlushedWhenExpired`, and the runs `DeliveryClock.LateIsLost` and `FecWitness.EarlierBlockLost`).
- Parity frames fit the path MTU in the fixed and the adaptive mode (`ParityMtu.ParityFits`). Cross-path parameters are
  not checked: a parity frame fits exactly when the longest payload of its block leaves room for the sub-header
  (`ParityMtu.FitsIff`; with the default MTU it takes 1532 bytes, `ParityMtu.CrossPathTooLong`).
- A marked echo request fails verification exactly when its true checksum is not zero
  (`IcmpEcho.MarkerFailsIff`, `IcmpEcho.MarkerMissed`).
- A degraded path recovers, or goes down, after a sustained condition exactly when no tick with the opposite condition
  started or kept the shared timer (`Health.RecoverySustainedIff`, `Health.EscalationSustainedIff`, with the runs
  `Health.DegradedRecoversAtOnce` and `Health.DegradedFallsAtOnce`).
- A down path comes back after a response exactly when it is marked revived at the tick that brings it back
  (`Health.ReturnsAnsweredIff`; in `Health.ReturnsUnanswered` nothing was ever answered).

## Model

| member | source | states |
|---|---|---|
| Pipeline.SentIsDelivered | internal/tunnel/tunnel.go:1263-1287 | from the peer's encoders to the inner peer: whatever they were given and however they switched, and whatever the WANs did, releases rise strictly in number and carry the payload given to an encoder under that number; the number read is the number sent below 2^31, and up to 2^32 - 1 while every frame lies within 2^31 of next when its turn comes |
| Pipeline.EndToEnd | internal/tunnel/tunnel.go:1080-1116 | for every run in which the peer's frames are lost, duplicated and reordered over any WANs: what the delivery buffer releases rises strictly in number and each payload is the one sent under its number; the number read is the number sent below 2^31, and up to 2^32 - 1 while every frame lies within 2^31 of next when its turn comes |
| Pipeline.ReadAsSent | internal/tunnel/delivery.go:76-112 | in every run over any frames that lie within 2^31 of next when their turn comes, everything is taken in under the number it was sent under |
| HeadOfLine.PassedOnlyByTick | internal/tunnel/delivery.go:114-139 | in every run of the receive path over honest traffic, next moves past a number without data, such as a parity frame's, only at a tick of the delivery buffer |
| HeadOfLine.ParityHoldsUp | internal/tunnel/server.go:682-690 | from the peer's encoders: nothing numbered beyond a parity frame is released before the first tick of the delivery buffer, even if every frame arrives |
| Receiver.Session | internal/tunnel/tunnel.go:1080-1116 | on objects from beginning to end: a client is made and called with what its peer's encoders emitted and the WANs mangled; what it writes to the inner peer is a run of the receive path, rises strictly in number and carries the payloads sent; its decoder ticks visit the overdue blocks, and the run is one to which the results about every frame apply |
| Receiver.Client.Serve | internal/tunnel/tunnel.go:1080-1116 | the same for the objects that run: bitmap, decoder objects and 32-bit buffer composed take exactly the steps of the receive path, decoder ticks visit the overdue blocks, and what is written to the inner peer rises strictly and is true |
| Receiver.Client.constructor | internal/tunnel/tunnel.go:477-480 | a new client is valid and owns all its parts, with fresh decoders, an empty buffer and the defaults filled in |
| Receiver.ConstructedStarts | internal/tunnel/tunnel.go:477-480 | what the constructor makes is a start of the receive path |
| Receiver.Client.Receive | internal/tunnel/tunnel.go:1080-1116 | one frame off the wire is one step of the receive path, in the order session, replay, decoder, delivery |
| Receiver.Client.TickDecoder | internal/tunnel/tunnel.go:1180-1202 | a decoder's tick is one step of the receive path and visits exactly the overdue blocks |
| Receiver.Client.TickDelivery | internal/tunnel/tunnel.go:1180-1202 | the delivery tick is one step of the receive path unless a frame numbered 0 is lowest |
| Receiver.NeverStuck | internal/tunnel/delivery.go:123-134 | no frame numbered 0 is lowest while the peer has sent none |
| Pipeline.PushFollowed | internal/fec/fec.go:626-692 | an honest frame keeps a decoder in step with its stream and makes it hand on only true frames, with coding on or off |
| Pipeline.ReceiveGood | internal/tunnel/tunnel.go:1263-1287 | session check, replay check, decoder and delivery buffer together keep order, conservation and truth of everything taken in |
| Sender.SenderHonest | internal/fec/fec.go:259-395 | every frame an encoder run emits, stamped with a path counter or a parity number of its own, is a true frame outside any block or a frame of a block registered under the decoder's key |
| Sender.RegistryHonest | internal/fec/fec.go:336-395 | the blocks of an encoder run are valid, numbered 1, 2, 3..., and carry only what was pushed |
| Erasure.XorMeetsContract | internal/fec/fec.go:778-810 | the single-parity XOR code satisfies the erasure contract, so the contract can be met |
| FecBlock.ParseInverts | internal/fec/fec.go:88-109 | parsing a parity payload gives back every field of the sub-header and the shard |
| FecSizing.RedundancySuffices | internal/fec/fec.go:223-251 | for every measured loss L up to the smaller of the global and the per-WAN ceiling the parity p satisfies p/(k+p) >= L, 1 <= p <= the configured parity, k+p <= 256 |
| FecSizing.ParityMonotone | internal/fec/fec.go:223-251 | the parity chosen never falls when the measured loss rises |
| FecSizing.CrossPathFloor | internal/tunnel/tunnel.go:211-233 | cross-path coding always uses its floor, which is at least k at protection level 1 |
| FecEncoder.StreamConserved | internal/fec/fec.go:259-395 | at every point of every run, across coding switches: data emitted so far followed by the waiting frames is what was pushed, in order; fewer than k wait; the held code matches (k, parity) |
| FecEncoder.EmissionHonest | internal/fec/fec.go:336-395 | the n-th sealed block has number n and is valid, and every emitted frame is a frame of a sealed block or a pushed frame uncoded; `FecEncoderLaws.PushEmits` says how many parity frames a block has |
| FecEncoder.StepKeeps | internal/fec/fec.go:181-216 | every step keeps the encoder's invariant: code, parity and numbering agree |
| FecEncoderObject.NewEncoder | internal/fec/fec.go:139-157 | an encoder in its fresh state that satisfies the invariant, or none exactly when the library refuses the geometry |
| FecEncoderObject.Encoder.SetLossRate | internal/fec/fec.go:164-179 | the object's fields become the specified next state |
| FecEncoderObject.Encoder.RefreshLocked | internal/fec/fec.go:181-204 | the coding switch with hysteresis is the specified one |
| FecEncoderObject.Encoder.RebuildLocked | internal/fec/fec.go:206-216 | the code is replaced only when the parity changes and the library makes the new one |
| FecEncoderObject.Encoder.Push | internal/fec/fec.go:259-288 | state and output are those of the specified step, and the invariant is kept |
| FecEncoderObject.Encoder.Tick | internal/fec/fec.go:301-329 | state and output are those of the specified step, and the invariant is kept |
| FecEncoderObject.Encoder.EmitBlock | internal/fec/fec.go:336-395 | the emitted frames are exactly the sealed block's data frames and self-describing parity frames, as many as the held code has unless nothing is carried |
| FecEncoderObject.ParityList | internal/fec/fec.go:382-394 | reusing one buffer for all parity frames gives each its own complete sub-header and shard |
| FecEncoderObject.SubBuffer | internal/fec/fec.go:372-381 | the buffer holds the fields all parity frames of a block share, at the places of the layout |
| FecEncoderObject.MarkPassSeq | internal/fec/fec.go:290-299 | every frame is marked and keeps its identity |
| FecRoundTrip.ErasureRoundTrip | internal/fec/fec.go:718-860 | in every honest decoder run, for a block not yet seen: the act with which any k of its k+p frames have arrived, one of them parity, in any order, with duplicates, amid any traffic, hands on exactly its k frames byte for byte in block order; no other act flushes it, and no other frame of it makes the decoder hand anything on |
| FecRoundTrip.DeadlineHandsOn | internal/fec/fec.go:697-715 | the decoder's tick at the deadline hands on exactly what arrived of an incomplete block, in block order, and all of it when every data frame arrived |
| FecRoundTrip.HandedOnIffNotBarred | internal/fec/fec.go:654-666 | a block without a buffer when its first frame arrives is handed on by its deadline iff no block of its stream with its number or a later one was flushed before |
| FecRoundTrip.NeverHandedOn | internal/fec/fec.go:654-666 | whatever arrives, a block at or below its stream's flush mark and without a buffer is never flushed again |
| FecRoundTrip.NotTwice | internal/fec/fec.go:812-817 | whatever arrives, no two acts flush the same block |
| FecWitness.EarlierBlockLost | internal/fec/fec.go:658-664 | a run in which every frame of both blocks arrives before any deadline and block 1 is never handed on, because block 2 was complete first |
| FecRoundTrip.HandedOnGenuine | internal/fec/fec.go:812-860 | in every honest run, whatever the decoder hands on is the frame just received, outside any block, or content of a block flushed by that act |
| FecReassembly.ArriveTracks | internal/fec/fec.go:626-692 | the decoder's answer to a frame of a block, and its new table and marks, are those of the open/done abstraction |
| FecReassembly.LengthsFit | internal/fec/fec.go:801-808 | the lengths of an honest header fit into the rebuilt shards, so cutting them out never runs past the end |
| FecReassembly.CompleteDelivers | internal/fec/fec.go:718-810 | a buffer with enough shards hands on the whole block, counts the rebuilt frames and loses none |
| FecRuns.ExpireTracks | internal/fec/fec.go:697-715 | flushing the overdue blocks in any order is what the abstraction does |
| FecAssembly.FlushHandsOn | internal/fec/fec.go:812-860 | flushing a buffer hands on exactly the arrived data in block order, header seen or not, and books the rest as lost only with a header |
| FecDecoderRuns.HonestRunFollows | internal/fec/fec.go:626-715 | through every honest run the decoder's table, marks and output are those of the abstraction, step by step |
| FecDecoderRuns.RunTruthful | internal/fec/fec.go:626-715 | over every honest run everything handed on carries the payload sent under its number |
| FecDecoderRuns.FlushOnceNeverReopened | internal/fec/fec.go:654-715 | in every run over any frames at all no block is flushed twice and none returns to the table |
| FecDecoderRuns.MarksNeverFall | internal/fec/fec.go:812-817 | at every step of every run over any frames a stream's highest flushed number never falls |
| FecDecoderRuns.TickEmpties | internal/fec/fec.go:697-715 | a tick past all deadlines empties the table |
| FecBooks.ArrivalCounts | internal/fec/fec.go:684-690 | the books after the decoder has taken in a frame: a data frame counts as received exactly when it is new to its block, a completing one books what it rebuilds, and nothing is booked lost |
| FecBooks.CompletionBooks | internal/fec/fec.go:778-810 | for a block completed by an arrival: distinct data arrivals + rebuilt = k, nothing booked as lost |
| FecBooks.ExpiryBooks | internal/fec/fec.go:812-831 | for a block flushed by its deadline with its header seen: distinct data arrivals + booked lost = k; without a header nothing is booked |
| FecBooks.BooksBalance | internal/fec/fec.go:626-831 | over every honest run, across any resets of the counters: what was taken from and what is left in a stream's received count is the sum of the distinct data arrivals of its blocks, its lost count likewise of what was missing from blocks a deadline flushed with a header, and the recovered count the sum of what was rebuilt |
| FecBooks.NothingUnaccounted | internal/fec/fec.go:778-880 | in every honest run of a new decoder, when every block seen is done with its header seen: received and lost over all streams and across resets, plus recovered, are k times the number of blocks |
| FecCache.RebuiltIff | internal/fec/fec.go:778-801 | a block with enough frames and data missing is rebuilt and handed on whole iff the code cached for its p was made for its k; otherwise nothing happens |
| FecCache.CacheIsInvisible | internal/fec/fec.go:482-492 | in every run over any frames whose parity headers all carry one k, the decoder does step by step what it would do without a cache |
| FecCache.AlwaysMade | internal/fec/fec.go:482-492 | in every run over any frames, what is cached under p is a code with p parity shards that the library made |
| FecWitness.SecondShapeStalls | internal/fec/fec.go:482-492 | a run in which a block with k = 1 and p = 1 is rebuilt and then one with k = 2 and p = 1 has enough frames and is not |
| FecDecoderObject.Decoder.constructor | internal/fec/fec.go:495-508 | a new decoder is the fresh state |
| FecDecoderObject.Decoder.Push | internal/fec/fec.go:626-692 | state and output are those of the specified step |
| FecDecoderObject.Decoder.PutFrame | internal/fec/fec.go:658-690 | a frame is refused or put into its buffer, with the receive count, as specified |
| FecDecoderObject.Decoder.AddParityTo | internal/fec/fec.go:732-771 | a parity payload is refused or stored with its header as specified, the lists read by a loop |
| FecDecoderObject.Decoder.Tick | internal/fec/fec.go:697-715 | the loop over the table flushes exactly the overdue blocks, each once, in whatever order it meets them |
| FecDecoderObject.Decoder.MaybeDeliver | internal/fec/fec.go:718-729 | a block is handed on, rebuilt or kept as specified |
| FecDecoderObject.Decoder.Reconstruct | internal/fec/fec.go:778-810 | shard list, rebuild and refill are as specified |
| FecDecoderObject.Decoder.ShardList | internal/fec/fec.go:784-796 | the list has the held shards in their places and holes elsewhere |
| FecDecoderObject.Decoder.Refill | internal/fec/fec.go:801-808 | exactly the missing payloads are filled in and counted |
| FecDecoderObject.Decoder.Flush | internal/fec/fec.go:812-860 | output, flush mark and loss count are as specified |
| FecDecoderObject.Decoder.RsFor | internal/fec/fec.go:482-492 | the code is the cached one for p, or a new one that is then cached |
| FecDecoderObject.SortedKeys | internal/fec/fec.go:832-841 | the numbers held are listed ascending, each once |
| Sorting.SortUint32 | internal/fec/fec.go:862-868 | the slice is sorted and a permutation of what it was |
| FecDecoderObject.Decoder.ObservePathSeq | internal/fec/fec.go:515-551 | one stream's ledger takes the specified step and no other changes |
| FecDecoderObject.Decoder.FlushPathGaps | internal/fec/fec.go:569-601 | every stream's gap timer takes the specified step |
| FecDecoderObject.Decoder.TakePathStats | internal/fec/fec.go:609-618 | the deltas are handed out and reset |
| FecDecoderObject.Decoder.TakeStreamStats | internal/fec/fec.go:874-880 | the counters are handed out and reset |
| PathLedger.LedgerBalances | internal/fec/fec.go:515-618 | over every run, across resets: received + lost = next - first, each counter below next is booked exactly once, candidates lie above next, and the timer runs iff there are candidates |
| PathLedger.DrainPending | internal/fec/fec.go:555-564 | the loop consumes the run of waiting counters |
| PathLedger.FlushStream | internal/fec/fec.go:569-601 | one stream's gap step is as specified |
| SmoothWrr.Proportional | internal/scheduler/scheduler.go:203-225 | from zero accumulators n*w_i - W*count_i equals the accumulator of path i at every prefix |
| SmoothWrr.Bounded | internal/scheduler/scheduler.go:203-225 | the accumulators always sum to 0 and stay in (-W, (N-1)W] |
| SmoothWrr.EveryRoundExact | internal/scheduler/scheduler.go:203-225 | any W consecutive picks choose path i exactly w_i times, for weights proportional to integers |
| SmoothWrr.FullRound | internal/scheduler/scheduler.go:203-225 | a full round returns all accumulators to 0 |
| SmoothWrr.IntegerShares | internal/scheduler/scheduler.go:203-225 | positive integer weights are shares of themselves, with a round as long as their sum |
| SmoothWrr.NeverTwiceIffTopShared | internal/scheduler/scheduler.go:196-202 | no path is ever picked twice running iff the largest weight is shared by two paths |
| SmoothWrr.UnequalPairRepeats | internal/scheduler/scheduler.go:196-202 | with weights 300 and 100 the first path is picked twice running |
| SmoothWrr.WindowShare | internal/scheduler/scheduler.go:203-225 | any stretch of picks within q rounds gives path i at most q times its share |
| Scheduler.Scheduler.constructor | internal/scheduler/scheduler.go:111-122 | a new scheduler is valid and has no ring |
| Scheduler.Scheduler.AddPath | internal/scheduler/scheduler.go:125-136 | registration is idempotent; a new path retires the ring |
| Scheduler.Scheduler.RemovePath | internal/scheduler/scheduler.go:139-153 | exactly the named path leaves, in order, and the ring is retired |
| Scheduler.Scheduler.OnState | internal/scheduler/scheduler.go:156-164 | only the named path's state and loss change, and the ring is retired |
| Scheduler.Scheduler.UsableLocked | internal/scheduler/scheduler.go:235-243 | the usable paths, each once; `Scheduler.UsableOrder` says in which order |
| Scheduler.Weight | internal/scheduler/scheduler.go:246-258 | a weight is positive exactly for usable paths; `Fairness.PickMany` says what it gives a path |
| Scheduler.UsableWeights | internal/scheduler/scheduler.go:218-220 | usable paths always have a positive total, so the zero-weight branch of a pick is dead |
| Scheduler.Scheduler.PickWRR | internal/scheduler/scheduler.go:203-225 | a pick is one step of smooth weighted round-robin over the usable paths and touches no other path |
| Scheduler.Scheduler.PickPath | internal/scheduler/scheduler.go:168-194 | the pick is always usable; standby takes the first healthy path, or the first usable one when none is; flows follow the ring; otherwise the fraction drawn falls into the stretch of the path's weight |
| Scheduler.Scheduler.PickRingLocked | internal/scheduler/scheduler.go:284-293 | the ring in use is always the fresh build over the usable paths, and is reused unchanged while current |
| Ring.BuildRing | internal/scheduler/scheduler.go:296-310 | 64 nodes per path, sorted, owned by the last path placed there |
| Ring.BuiltUnique | internal/scheduler/scheduler.go:284-310 | two builds over the same paths are equal |
| Ring.Search | internal/scheduler/scheduler.go:288-288 | the first node at or after the hash |
| Ring.PickRing | internal/scheduler/scheduler.go:284-293 | the flow's path is the owner of the next node, going round |
| Ring.OnlyItsFlowsMove | internal/scheduler/scheduler.go:280-293 | taking a path out moves only flows that were on it, whatever nodes collide |
| Ring.FlowsMoveOnlyToIt | internal/scheduler/scheduler.go:280-293 | bringing a path in moves flows only onto it |
| Ring.Fnv1a | internal/scheduler/scheduler.go:313-322 | the loop computes the placing of a node |
| Survival.WholeWanSurvives | internal/tunnel/tunnel.go:944-963 | N paths of equal weight, k <= (N-1)p: a block that loses every frame sent on one path is handed on by the decoder whole and once |
| Survival.CrossPathProtects | internal/tunnel/tunnel.go:944-963 | from encoder to decoder: every block of k frames, one of them not empty, that a cross-path encoder seals, sent by consecutive picks over N equal paths with k <= (N-1)p, is handed on whole and once although one path loses everything |
| Survival.LevelOneProtects | internal/tunnel/tunnel.go:211-233 | the same for every configuration at protection level 1 and any two or more equal WANs |
| Survival.LostShareSurvives | internal/fec/fec.go:52-57 | for unequal weights: a block is handed on whole and once although a path is lost whose share of it is at most p |
| Survival.FullProtection | internal/tunnel/tunnel.go:211-233 | whenever an encoder can be made, cross-path coding at protection level 1 has at least k parity frames in every coded block, whatever the loss |
| ReplayWindow.AcceptsIffNewAndInWindow | internal/crypto/crypto.go:177-198 | in every run a number is accepted iff never accepted before and not below max(0, highest - window + 1) |
| ReplayWindow.RunInvariant | internal/crypto/crypto.go:177-198 | the window remembers exactly the accepted numbers at or above its floor |
| ReplayWindow.Window.constructor | internal/crypto/crypto.go:166-174 | a new bitmap is the empty filter of its size, or of the default size |
| ReplayWindow.Window.CheckAndMark | internal/crypto/crypto.go:177-198 | the bitmap refines the set filter for every window size |
| ReplayWindow.Window.ShiftRight | internal/crypto/crypto.go:202-220 | bit b becomes bit b+n of before, for every distance, in place |
| Delivery.DeliveryOrder | internal/tunnel/delivery.go:76-155 | in every run the output rises strictly, next is one past the last number released and never waiting, everything waiting is beyond it, the timer runs iff something waits, and a stale tick releases a frame |
| Delivery.DeliveryConserves | internal/tunnel/delivery.go:85-155 | each frame taken in is exactly one of released, waiting, evicted; the drop counter is explained |
| Delivery.UntakenPassedByTick | internal/tunnel/delivery.go:114-139 | in every run next moves past a number never taken in only by a tick |
| Delivery.BoundHolds | internal/tunnel/delivery.go:91-105 | what waits exceeds the bound by at most the number of full-buffer arrivals that were lowest |
| Delivery.BoundLeftIff | internal/tunnel/delivery.go:94-104 | one arrival leaves the bound iff it meets a full buffer and is lowest |
| Delivery.BoundExceeded | internal/tunnel/delivery.go:94-104 | a run that leaves the bound |
| DeliveryObject.SerialAgrees | internal/tunnel/delivery.go:82-84 | the int32 difference test is the true order of numbers within 2^31, across wrap-around |
| DeliveryObject.NearestIs | internal/tunnel/delivery.go:82-84 | within 2^31 of next a number is read as what it was |
| DeliveryObject.ReadTrulyIff | internal/tunnel/delivery.go:82-84 | a number up to 2^32 - 1 is read as itself iff it lies within 2^31 of next |
| DeliveryObject.DeliveryBuffer.constructor | internal/tunnel/delivery.go:33-46 | a new buffer expects number 1, with 100 ms and 4096 frames where the arguments are not positive |
| DeliveryObject.DeliveryBuffer.Reload | internal/tunnel/delivery.go:50-59 | only the tuning changes |
| DeliveryObject.DeliveryBuffer.Push | internal/tunnel/delivery.go:76-112 | for any frames the 32-bit object takes exactly the steps of the buffer on true numbers, each number read as the one closest to next |
| DeliveryObject.DeliveryBuffer.Tick | internal/tunnel/delivery.go:116-139 | the 32-bit tick takes the step on true numbers and keeps the invariant iff the lowest waiting number is not 0 on the wire |
| DeliveryObject.DeliveryBuffer.DrainContiguous | internal/tunnel/delivery.go:142-155 | the loop releases the run of waiting frames that starts at next |
| DeliveryObject.LowestFrom | internal/tunnel/delivery.go:95-100 | the eviction scan finds the lowest true number |
| DeliveryObject.LowestWaiting | internal/tunnel/delivery.go:123-128 | the tick's scan finds the lowest true number unless that is 0 on the wire |
| DeliveryObject.StuckAfterWrap | internal/tunnel/delivery.go:123-134 | a run of five events, every frame within 2^31 of next, after which the tick fails |
| SendQueue.Queue.constructor | internal/tunnel/wanqueue.go:67-80 | a new queue is empty and valid |
| SendQueue.Queue.Enqueue | internal/tunnel/wanqueue.go:84-117 | bytes is the sum of the queued lengths and within the limit; accepted leaves the longest run of newest packets that fits; offers = sent + queued + dropped |
| SendQueue.Queue.EvictFor | internal/tunnel/wanqueue.go:98-110 | eviction stops at the first fit, and the empty-queue branch is dead |
| SendQueue.LongestIsLongest | internal/tunnel/wanqueue.go:98-110 | no longer run of newest packets would fit |
| SendQueue.Queue.PopNext | internal/tunnel/wanqueue.go:129-153 | packets leave in the order of acceptance; an empty queue waits, through refused offers, for the first accepted packet, for closing or for cancellation |
| SendQueue.Queue.Close | internal/tunnel/wanqueue.go:202-207 | closing keeps what is queued |
| TokenBucket.AlwaysSane | internal/tunnel/wanqueue.go:157-184 | 0 <= tokens <= burst at every point of every run |
| TokenBucket.GrantsBounded | internal/tunnel/wanqueue.go:157-184 | bytes granted between two looks are at most burst + rate * time between them |
| TokenBucket.WaitingSuffices | internal/tunnel/wanqueue.go:174-182 | after the computed deficit a need within the burst is granted |
| TokenBucket.TooMuchWaitsForever | internal/tunnel/wanqueue.go:162-183 | a need above the burst is never granted |
| TokenBucket.Limiter.TakeTokens | internal/tunnel/wanqueue.go:157-184 | a need within the burst is granted after at most one wait unless cancelled before; one above it waits until cancelled |
| WanSender.NewSender | internal/tunnel/wanqueue.go:67-80 | queue and bucket are made with one size, so every queued packet fits the burst |
| WanSender.Run | internal/tunnel/wanqueue.go:187-200 | packets are written in the order of acceptance, each after at most one wait for tokens; at most the last one popped is not written, and only when its wait was cancelled; the loop stops otherwise only with the queue empty, and closed or left without a packet that fits |
| Health.AlwaysSound | internal/health/health.go:187-296 | in every run the loss estimate stays in [0,1] and revived implies down |
| Health.DegradesOnlyAfter | internal/health/health.go:313-326 | a tick degrades only after the loss was over the cap at every tick for degradeAft |
| Health.RecoversOnlyAfter | internal/health/health.go:348-360 | a down path leaves only for healthy, on a tick, after the loss was under half the cap at every tick for recoverAft |
| Health.DegradedRecovers | internal/health/health.go:327-347 | a recovery comes at least recoverAft after the shared timer started, and from degradeAft after the start every tick saw the loss under half the cap |
| Health.RecoverySustainedIff | internal/health/health.go:327-347 | the loss was under half the cap at every tick of that stretch iff no tick of it saw the loss over the cap |
| Health.EscalationSustainedIff | internal/health/health.go:332-347 | a fall for loss had it over the cap at every tick for degradeAft iff no tick of the stretch saw it under half |
| Health.DegradedRecoversAtOnce | internal/health/health.go:332-347 | a run in which the shared timer lets a path recover at its first good tick |
| Health.DegradedFallsAtOnce | internal/health/health.go:332-347 | a run in which it takes a path down at its first bad tick |
| Health.RevivedIffResponded | internal/health/health.go:222-236 | in every run a down path is marked revived iff it has responded since it went down |
| Health.ReturnsAnsweredIff | internal/health/health.go:348-360 | a return from down comes after a response iff the path is marked revived |
| Health.ReturnsUnanswered | internal/health/health.go:348-360 | a run in which a path returns from down with nothing ever answered |
| Health.EstimatesBounded | internal/health/health.go:196-207 | in every run the round-trip and jitter estimates lie between 0 and the longest round trip measured |
| Health.Moves | internal/health/health.go:242-367 | the moves each kind of event can make; `HealthLaws` says exactly when |
| Health.Monitor.constructor | internal/health/health.go:105-141 | the tuning is sane, and every option out of range takes its default |
| Health.Monitor.ObserveSample | internal/health/health.go:187-209 | the fields become the specified next state |
| Health.Monitor.NoteAlive | internal/health/health.go:216-236 | the hard reset happens once per outage |
| Health.Monitor.NoteMissedProbe | internal/health/health.go:242-256 | the fields become the specified next state |
| Health.Monitor.ObserveInBand | internal/health/health.go:263-279 | the fields become the specified next state |
| Health.Monitor.ObserveRaw | internal/health/health.go:288-296 | only the estimate changes |
| Health.Monitor.Tick | internal/health/health.go:305-361 | the fields become the specified next state |
| Checksum.Verifies | internal/transport/faketcp.go:363-375 | a sum that includes its own checksum verifies |
| Checksum.InvertedVerifiesIff | internal/transport/icmp.go:294-296 | with the inverted checksum it verifies iff the checksum was zero |
| Checksum.FoldOf | internal/transport/faketcp.go:371-373 | folding keeps the value modulo 2^16 - 1 and is zero only for zero |
| Checksum.OfBuffer | internal/transport/faketcp.go:363-375 | the loops compute the checksum, 32-bit wrap-around included |
| FakeTcp.ChecksumWithPseudo | internal/transport/faketcp.go:382-406 | the loops compute the checksum over pseudo-header and segment |
| FakeTcp.SegmentRoundTrip | internal/transport/faketcp.go:281-348 | every payload whose segment fits 65535 bytes comes back with source, ports and sequence number, and both checksums verify |
| FakeTcp.BuildSegment | internal/transport/faketcp.go:281-304 | the buffer filled in place is the specified image |
| IcmpEcho.MarkerFailsIff | internal/transport/icmp.go:287-298 | a plain packet verifies; a marked one fails iff its true checksum is not zero |
| IcmpEcho.MarkerMissed | internal/transport/icmp.go:294-296 | a marked request that verifies all the same |
| IcmpEcho.EchoRoundTrip | internal/transport/icmp.go:306-339 | payload, type and identifier come back behind any IPv4 header with options, with the checksum verdict above |
| IcmpEcho.BuildEcho | internal/transport/icmp.go:287-298 | the buffer filled in place is the specified packet |
| FrameWire.DecodeInverts | internal/frame/frame.go:77-131 | decoding an encoded frame gives it back, stamped with the protocol version |
| FrameWire.DecodedStands | internal/frame/frame.go:98-131 | what decodes has the fields of its frame in their places; only the reserved bytes are free |
| FrameWire.BeginsWithMagic | internal/frame/frame.go:77-93 | every image begins with the letters FLXB, in this order, and version 2 |
| FrameWire.Encode | internal/frame/frame.go:77-93 | the buffer filled in place is the specified image, or an error for a payload too large |
| Wire.FrameSurvives | internal/transport/faketcp.go:281-348 | every frame whose segment fits 65535 bytes survives Encode, buildSegment, parseSegment and Decode, with both checksums verifying |
| Completeness.EveryPushAccounted | internal/tunnel/tunnel.go:1080-1116 | from the peer's encoders: when an encoder has nothing waiting, every data frame it emitted has come, new and in the window, no block was closed before its first frame or flushed by a tick before one of its data frames came, and decoder table and delivery buffer are empty, each pushed payload was released, evicted by a full buffer, or its number given up by a delivery tick before it came |
| AccountedWitness.HypothesesMet | internal/tunnel/tunnel.go:1080-1116 | a session with a coded block and a decoder tick that meets all hypotheses of the row above |
| Completeness.BroughtFate | internal/tunnel/tunnel.go:1263-1287 | every emitted data frame that comes new and in the window is from then on taken in, given up by a delivery tick or held by its decoder, or came too late for its block |
| Completeness.PushedIsEmitted | internal/fec/fec.go:259-395 | every pushed frame that no longer waits in the encoder was emitted with its number and payload, and with no flag that would end it before the decoder |
| Progress.FrameFate | internal/fec/fec.go:626-715 | in every honest run, each data frame of a block that comes is from then on held, taken in or given up by a delivery tick, unless its block was closed when it came: flushed by a tick without it, or closed before its first frame |
| Progress.ClosedRefuses | internal/fec/fec.go:658-664 | a frame whose block is closed changes neither its decoder nor the delivery buffer |
| Progress.PassingFate | internal/fec/fec.go:626-653 | a frame outside any block, or one that meets a decoder without coding, is taken in or its number was given up by a delivery tick |
| Progress.BelowNextSettled | internal/tunnel/delivery.go:76-139 | in every honest run each number below next was taken in, or given up by a delivery tick |
| Progress.DecoderSteps | internal/tunnel/tunnel.go:1109-1115 | what concerns a decoder is exactly the admitted frames of its slot and its ticks; its answer goes to the delivery buffer, and nothing else changes it |
| Timeliness.FlushedWhenExpired | internal/fec/fec.go:697-715 | a decoder tick flushes a block only when the block timeout has passed since the frame that opened it |
| Timeliness.Opener | internal/fec/fec.go:666-690 | every block in a decoder's table was opened by a frame of it, has been there since, and its deadline is the timeout after that frame |
| Timeliness.InTimeNotFlushed | internal/fec/fec.go:654-715 | a frame that comes before any tick past that deadline is refused only if its block was closed before its first frame came |
| Admission.PassesIffNew | internal/crypto/crypto.go:177-198 | in every run of the receive path a number gets through exactly when no frame of the session came under it and none a window's width or more beyond it |
| Admission.OthersIgnored | internal/tunnel/tunnel.go:1080-1116 | a frame that came before, is a window behind, of another session, without inner data or without a decoder changes neither the decoders nor the delivery buffer |
| Admission.AsideDelivered | internal/tunnel/tunnel.go:1080-1116 | an admitted frame outside any block leaves the blocks alone; at next it is released at once with what waited right behind it, beyond next it is taken in and waits, below next nothing changes |
| Admission.AdmittedDecoded | internal/tunnel/tunnel.go:1109-1115 | an admitted frame is given to the decoder of its slot, and the answer to the delivery buffer |
| Admission.ControlEndsEarly | internal/tunnel/tunnel.go:1089-1111 | key exchange, replies to probes, control, keepalives and empty frames end before the decoders |
| Admission.SharedIff | internal/tunnel/tunnel.go:400-432 | two WANs share a decoder, and frames of one block sent over both meet in it, exactly in cross-path mode |
| PipelineClock.HistoryIsRun | internal/tunnel/tunnel.go:1109-1115 | in every run of the receive path the delivery buffer is where its own run over the arrivals and ticks leads |
| PipelineClock.TickReleasesIff | internal/tunnel/delivery.go:114-139 | in every run of the receive path a delivery tick releases frames exactly when something has waited without a break for the gap timeout; otherwise it changes nothing |
| FecHolding.ActHolds | internal/fec/fec.go:626-715 | an honest act keeps every data frame the decoder holds or hands it on, and a block leaves the table only handed on whole, or flushed by a tick |
| FecHolding.LandsHeld | internal/fec/fec.go:658-692 | a data frame whose block is in the table, or above the stream's flush mark, is held or handed on |
| FecAnyFrames.FirstSeenStays | internal/fec/fec.go:718-771 | in every run over any frames a block keeps the header first seen, and each number the payload that first came under it |
| FecAnyFrames.DisagreeingIgnored | internal/fec/fec.go:732-771 | a parity payload that cannot be read, or is of another k or shard size than the header seen, hands nothing on and leaves the block as it was |
| FecAnyFrames.DisabledPasses | internal/fec/fec.go:626-645 | in every run a decoder without coding hands on exactly the data frames it received, as they came |
| FecEncoderLaws.PushEmits | internal/fec/fec.go:259-288 | in every run a push with coding on that brings the k-th waiting frame emits the k frames under the next block number and then as many parity frames as the held code has, or none if nothing is carried; with fewer frames nothing; with coding off all that waits, marked |
| FecEncoderLaws.FullBlockEmits | internal/fec/fec.go:336-395 | from a new encoder on: every full block with a payload goes out with exactly the parity the loss last reported calls for, or the configured parity |
| FecEncoderLaws.TickEmits | internal/fec/fec.go:301-329 | in every run a tick with coding on flushes the waiting frames as a short block without parity exactly when the oldest was pushed the timeout or more before; with coding off it emits what waits |
| FecEncoderLaws.SwitchesWhen | internal/fec/fec.go:181-204 | in every run each event switches coding on exactly when the loss last reported is at least the on-threshold, and off exactly when it is under the off-threshold and coding was switched on the hold time or more before |
| FecEncoderLaws.ConfiguredSwitches | internal/tunnel/tunnel.go:243-266 | the same from the configuration: an adaptive encoder starts without coding and switches at the configured thresholds |
| FecEncoderLaws.ConfiguredAlways | internal/tunnel/tunnel.go:211-242 | an encoder configured as fixed or cross-path codes all the time |
| FecEncoderLaws.HoldsWanted | internal/fec/fec.go:206-216 | in every run the held code is replaced only while coding, and then has the parity wanted for the loss last reported unless the library refuses it |
| FecEncoderLaws.HoldsLeast | internal/fec/fec.go:206-251 | in every adaptive run, whatever rates are reported, the held parity is the least that meets the safety target of the loss, or all there is room for |
| FecEncoderLaws.ConfiguredMargin | internal/tunnel/tunnel.go:243-266 | an encoder configured as adaptive and below its ceilings holds at least 1.3 times the parity the reported loss takes out, or what the configured ceiling takes out |
| FecSizing.LeastParity | internal/fec/fec.go:223-251 | the parity chosen is the least that meets the safety target and the floors, or all there is room for if that is less |
| ParityMtu.ParityFits | internal/tunnel/tunnel.go:276-284 | accepted parameters of the fixed and the adaptive mode leave room for every parity frame on a 1500-byte path |
| ParityMtu.FitsIff | internal/fec/fec.go:102-109 | a parity frame fits exactly when the longest payload of its block is at most the path MTU less header, tag and sub-header |
| ParityMtu.CrossPathTooLong | internal/tunnel/tunnel.go:211-233 | cross-path parameters accepted with the default MTU whose parity frames take 1532 bytes |
| LedgerLaws.TickBooksIff | internal/fec/fec.go:569-601 | in every run a tick books a gap exactly when some counter has waited for the whole window since the stretch began or the last tick booked; otherwise it changes nothing |
| LedgerLaws.FateOf | internal/fec/fec.go:515-601 | each counter is booked as received exactly when it was seen by then, and as lost only on a tick when a later counter has waited for the window |
| PathStats.RawIsLedger | internal/fec/fec.go:515-618 | in every run of a decoder over any frames the raw counters of a stream are those of the ledger over the frames that passed by on its path and the ticks |
| PathStats.CounterReachesLedger | internal/tunnel/tunnel.go:885-897 | the counter a path stamps on a frame passing by is the one the ledger of that path is told; frames of blocks tell it nothing |
| SmoothWrr.StrictRotation | internal/scheduler/scheduler.go:203-225 | paths of equal weight are picked in strict rotation |
| Fairness.PickMany | internal/scheduler/scheduler.go:203-258 | on the paths' own fields: healthy paths with integer capacities are chosen by capacity in any round; balanced by turns in strict rotation; in any mix a degraded path counts for a fifth of a unit of capacity, whatever its own |
| Fairness.CapacityShares | internal/scheduler/scheduler.go:246-258 | balanced by capacity, healthy paths get shares as their capacities |
| Fairness.MixedShares | internal/scheduler/scheduler.go:246-258 | degraded or healthy, whatever the balance, a degraded path has one share where a healthy one has five for each unit |
| Scheduler.PickWeighted | internal/scheduler/scheduler.go:262-278 | the fraction drawn falls into the stretch of the chosen path's weight, all weights laid end to end |
| Scheduler.UsableOrder | internal/scheduler/scheduler.go:235-243 | of two usable paths the one registered earlier comes first |
| Ring.FnvPublished | internal/scheduler/scheduler.go:313-322 | the published 32-bit FNV-1a hashes of the empty text and of "a" |
| Ring.FnvStepInjective | internal/scheduler/scheduler.go:313-322 | one step of the hash is injective in the hash so far and in the octet |
| Ring.OwnNodesDiffer | internal/scheduler/scheduler.go:296-310 | the nodes of one path never collide with each other |
| Ring.SixtyFourEach | internal/scheduler/scheduler.go:296-310 | a ring has 64 nodes for each path |
| DeliveryClock.TickReleasesIff | internal/tunnel/delivery.go:114-139 | in every run a tick releases frames exactly when something waits and the arrival since which something has waited without a break lies the timeout or more before; it then releases the lowest first, and otherwise changes nothing |
| DeliveryClock.ArrivalFate | internal/tunnel/delivery.go:76-112 | in every run a frame at next is released at once with what waited right behind it, one below next changes nothing, one beyond next waits, and only what is lower than all that is kept may be given up for it |
| DeliveryClock.HoleGivenTimeIff | internal/tunnel/delivery.go:114-121 | a tick that skips a hole gave it the whole timeout if next has not moved since something began to wait; otherwise the hole is as old as the last move of next |
| DeliveryClock.HoleSkippedEarly | internal/tunnel/delivery.go:114-121 | a run in which a hole is skipped after a twentieth of the timeout |
| DeliveryClock.TicksEmpty | internal/tunnel/delivery.go:114-139 | as many late ticks as frames wait leave nothing waiting |
| DeliveryClock.LateIsLost | internal/tunnel/delivery.go:82-84 | a run in which a number given up by a tick comes after it and is neither released nor evicted |
| TokenBucket.NothingLostUnlessFull | internal/tunnel/wanqueue.go:157-184 | while the bucket does not overflow, what is granted and what is left are exactly what was there and what was earned |
| HealthLaws.MissesCount | internal/health/health.go:222-256 | in every run the miss counter is the number of unanswered probes since the last response |
| HealthLaws.ProbeDownIff | internal/health/health.go:242-256 | a probe takes a path down exactly when there is no grace period and it ends enough misses without a response |
| HealthLaws.MissedOutIs | internal/health/health.go:308-312 | at a tick probes have gone unanswered for long enough exactly when the miss that reached the limit, with no response since, lies the grace period or more before |
| HealthLaws.HealthyMoves | internal/health/health.go:313-326 | a tick moves a healthy path down exactly then, and otherwise to degraded exactly when the loss was over the cap at every tick of a stretch of degradeAft |
| HealthLaws.DegradedMoves | internal/health/health.go:327-347 | a tick moves a degraded path down exactly when probes have gone unanswered for long enough or the loss is over the cap at the end of a shared stretch of degradeAft, and to healthy exactly when it is under half the cap at the end of one of recoverAft |
| HealthLaws.DownMoves | internal/health/health.go:348-360 | a tick brings a down path back exactly when the loss was under half the cap at every tick of a stretch of recoverAft without a first response in it |
| HealthLaws.WindowDegradesIff | internal/health/health.go:263-279 | a window degrades a healthy path at once exactly when it and the window before it were over the cap |
| HealthLaws.Converges | internal/health/health.go:187-195 | under a constant rate the estimate closes in geometrically, by the fast weight upwards and the slow one downwards |
| HealthLaws.FirstResponseForgets | internal/health/health.go:222-236 | the first response of a down path resets its estimate, later ones leave it and the recovery timer alone |
| HealthLaws.RoundTripMoves | internal/health/health.go:196-207 | the first round trip is taken over, each later one moves the estimate towards it by the whole nanoseconds of its share, and the jitter likewise |
| Checksum.PublishedExample | internal/transport/faketcp.go:363-375 | the example of section 3 of RFC 1071 |

## Left out

- Reed–Solomon field arithmetic: the library is used only through the erasure contract.
- Ciphers, key derivation and the key exchange: received frames are taken as authenticated.
- Sockets, device binding, the ICMP reply queue and UDP transport: input and output.
- Configuration loading, live reload of codecs and monitors, telemetry, logging: field checks and plumbing.
- Session tables and server path registration: thin maps over pieces modelled here.
- The random generator and the hash of the inner 4-tuple: the fraction drawn and the hash are parameters of `PickPath`.
- Goroutine scheduling, channels and lock order: each locked method is one step, and a block's frames are taken to be consecutive picks.
- Float rounding: reals throughout; durations are whole nanoseconds, truncated as in the source.
- Updating frames and block states through shared pointers: frames and block states are values; paths and decoders are objects.
- Two readings of the clock within one call are taken as one.
- Path identifiers are strings of single-byte characters; the ring version and telemetry counters do not wrap.
- SentIsDelivered: fewer than 2^32 blocks per encoder, and each wire number is sent once. A server's one encoder per session is one source under every slot.
- EndToEnd: each wire number is sent once, so a session ends before its numbers wrap around.
- Refill: a length in a sub-header above the block's shard size is cut to it, where the source would panic; `LengthsFit` shows that honest headers have none.
- SegmentRoundTrip: parsing assumes that the IP total length leaves room for the TCP fields that are read.
- EchoRoundTrip: parsing assumes that the IP total length leaves room for the ICMP header.
- EveryPushAccounted: numbers start at one and stay below 2^31, and frames without a payload are not followed.
- PickMany: the paths and their states do not change meanwhile, and their accumulators start at zero.
- WholeWanSurvives: the usable set and the weights do not change while the block is sent.
- CrossPathProtects: every emitted frame is one round-robin pick over paths of equal weight; picks by flow are not in the run. A short block flushed by a tick has no parity (`TickEmits`) and is not covered.

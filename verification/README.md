# Black Hole Sun: a verified model

This project models the parts of Black Hole Sun where several steps have to agree with each other, and proves what
they promise, for every input, every run and every interleaving. It is checked by `dafny verify dfyconfig.toml`.

* Progressive transfers, that is the Void server, its producers, its readers and the live stream: `Transfer`,
  `TransferInvariant`, `TransferReaders`, `TransferReplay`, `TransferDurability`, `TransferAliasing`, `TransferRefusals`,
  `LiveStream`, `LiveFrames`, `UploadStream`, `Publication`, `Interleaving`, `RoundTrip`, `VoidServer`.
* Mass, that is the placement tree, the per-instance session with its freezing schedule, and the TCP tunnel:
  `Placement`, `PlacementTree`, `PlacementExact`, `Session`, `SessionHistory`, `Tunnel`.
* Beam, that is fetching nested warp suns, merging them into one graph, and replaying phases: `WarpFetch`, `WarpMerge`,
  `WarpMergeProofs`, `WarpMergeResults`, `WarpMergePlaces`, `WarpMergeDangling`, `WarpMergeFlows`, `WarpMergeOrder`,
  `WarpMergePaths`, `WarpMergeLimits`, `WarpMergeCode`, `WarpPipeline`, `Phases`.
* Tensor artifacts, that is the schema checker, the frame codec and the header that leads a live stream: `Schema`,
  `TensorOrder`, `HeaderOffsets`, `FrameCodec`, `FrameProofs`, `FrameLimits`, `FrameCode`.
* Multipart uploads and ranged downloads: `Multipart`.

`Basics` holds machine widths, bytes, results and the hash; `Sorting` is the stable sort by a key.

## How the model is built

* A component whose methods update fields is a class (`VoidServer.Server`, `LiveStream.FrameReceiver`,
  `Session.Instance`, `Tunnel.TcpTunnelSession`, `Phases.CellVisualState`, `Multipart.MultipartServer`) and its loops
  are loops. Each method states its whole new state by a function of the old one; the theorems are about those
  functions.
* Concurrency is a step relation: a run is any sequence of enabled steps. Transfer requests hold one lock, so each is
  one step. Readers that make several requests see a sequence of server states (`world`) that other requests advance.
* SHA-256, postcard and JSON are arbitrary functions. Where losing nothing matters it is a named premise about the
  values at hand (`LosslessCodec`, `FrameCodec.PostcardReads`, `BodyReads`, `HeaderReads`). No property of the hash is
  used except that it is a function. Two facts about libraries are written out: safetensors writes wider dtypes first
  and equal ones by name (`FrameCodec.Arrange`; the ranks of the dtypes are left open), and a `serde_json::Map` without
  `preserve_order` is sorted by name (`HeaderOffsets.SortByName`).
* Lengths and counters that the source keeps in 64 or 32 bits are `U64`/`U32`, with the saturating and checked
  additions written out; exceptions are listed at the end.

## Where the code does less than one would expect

Each point has a lemma at a concrete input, or at every input of a kind, and a lemma that says exactly when the
promise holds.

* *Durability.* A transfer request decodes whatever object its id names. A plain upload whose bytes are an encoded
  record is taken for that record, and can abort a committed transfer (`TransferAliasing.AliasUndoesCommit`). A
  committed transfer survives a run of any requests if and only if none of them touches its record or its chunks
  (`TransferDurability.DurableExactly`; what a request touches can be read off the state, the request and the clock).
  Requests that address records or nothing never do (`TransferDurability.ProperRunSpares`).
* *Merging.* A sun with an edge from a cell that does not exist fails `validate`, yet can pass it after a merge, when a
  fresh id equals the missing one; the result can be cyclic (`WarpMergeLimits.DanglingEdgeMakesCycle`, and one level
  down `NestedDanglingEdgeMakesCycle`). `WarpMergeDangling.ValidatesExactly` says when a sun with unique names passes.
  `WarpMergeFlows.AcyclicRecursively` says, for every family, when the result is acyclic: each sun that went in is so
  without its dangling edges, and none of these flows back to its start. Flows are read off the suns: along a sun's own
  edges, into a joined sun by an edge that names one of its cells or through the connector, and on inside that sun.
* *Merging.* A warp sun keyed by a cell that the appearance does not have is meant to be reported. It is not when the
  key equals an id already handed out (`WarpMergeLimits.UnknownCellUnreported`); `WarpMergeResults.UnknownExactly`
  says which keys are reported.
* *Stream headers.* `validate_tensor_stream_header` sorts entries by their first offset only. An empty tensor shares
  its offset with the next one, and if the name order puts the one with data first, the header of a valid frame is
  rejected. `FrameLimits.EmptyTensorRejectsHeader` is such a bundle: it encodes, its frame decodes, its header does not
  validate. By `FrameProofs.HeaderValidatesExactly` a header is rejected if and only if some empty tensor is followed
  in write order, empty ones skipped, by a tensor with data whose name sorts before it.
* *Oscillation.* The flag that a session has when its counter stands at the end of warmup still governs the next
  optimization, so the first window past warmup may train once more or once less. It trains twice instead of once in
  `Session.FirstWindowTrainsTwice`, without warmup, where the initial flag repeats step 1; and in
  `Session.WindowAfterWarmupTrainsTwice`, after a warmup of one step. `Session.FirstWindowExactly` says exactly when it
  is right. Every window that starts with the counter past warmup is exact.
* *Placement.* Workers advertise the capacity of a subtree but only their own operations, so mixed trees can strand
  room (`PlacementTree.MixedCapabilitiesStrandRoom`). An idle tree never strands room if and only if it is
  `PlacementTree.Steady`, which can be read off its limits and operations (`PlacementExact.NeverStrandsExactly`). An
  unbounded worker needs to be steady only at its own node: it is offered one instance and can host that itself.
* *Multipart.* The size put on record adds up every write, repeats included (`Multipart.RepeatedPartCountsTwice`);
  `Multipart.RecordedSizeExactly` says when it is the object's length.
* *Tunnel.* A call admitted before its session closed but registered afterwards is not in the drain, and can wait
  forever (`Tunnel.LateCallIsStranded`, `Tunnel.StrandedForever`). A close leaves no call waiting, in any continuation,
  if and only if no admitted call was still unregistered at that moment (`Tunnel.CloseLeavesWaiterExactly`).

## Model

| member | source | states |
|---|---|---|
| TransferInvariant.HandleKeeps | _black_hole_void/src/lib.rs:1350-1616 | every upload, transfer request and cleanup step keeps the whole invariant: well-formed records, exact chunk ownership, exact active set; and records only evolve: terminal ones are final, open ones gain chunks, chunk bytes stay |
| TransferInvariant.RunKeeps | _black_hole_void/src/lib.rs:1350-1616 | the same over every run of requests with any clock readings |
| TransferInvariant.ChunkLenExact | _black_hole_void/src/lib.rs:1435-1490 | for every open record and every chunk within the object limit the saturating length sum is the exact one |
| TransferInvariant.StoreChunkUpdates | _black_hole_void/src/lib.rs:1410-1496 | an accepted chunk adds exactly one entry, with the exact length of its data, and one object holding that data |
| TransferInvariant.CommitUpdates | _black_hole_void/src/lib.rs:1510-1595 | an accepted commit keeps the declaration and the chunk list, makes the record terminal, and keeps the invariant, which ties the content to the declared count, length and hash |
| TransferInvariant.AbortUpdates | _black_hole_void/src/lib.rs:1277-1302 | an abort leaves the aborted record and keeps the invariant, so no chunk object of the transfer stays behind |
| TransferReaders.CommittedContent | _black_hole_void/src/lib.rs:1510-1595 | the content of a committed transfer is its chunks concatenated in index order, of the declared length and hash |
| TransferDurability.RequestExactly | _black_hole_void/src/lib.rs:1244-1616 | a committed transfer keeps its record, its chunk objects and their bytes across a request, of any kind and to any id, if and only if the request rewrites or deletes none of their ids |
| TransferDurability.DurableExactly | _black_hole_void/src/lib.rs:1277-1616 | the same over every run of requests |
| TransferDurability.CommittedForever | _black_hole_void/src/lib.rs:1277-1616 | after every run that spares it a committed transfer has the same record, chunk objects and content |
| TransferDurability.ProperRunSpares | _black_hole_void/src/lib.rs:1277-1616 | a run whose requests address records, or nothing, spares every committed transfer |
| TransferDurability.HandleUntouched | _black_hole_void/src/lib.rs:1244-1616 | no request changes an object under an id outside those it touches |
| TransferReaders.AbortedForever | _black_hole_void/src/lib.rs:1277-1348 | an aborted transfer stays aborted |
| TransferReaders.ChunkObjectsConserved | _black_hole_void/src/lib.rs:1397-1495 | after every run the stored chunk objects are exactly those that records list, each listed by one; the active set is exactly the open transfers |
| TransferReaders.RecordsAfterRun | _black_hole_void/src/lib.rs:1410-1496 | after every run each record has strictly increasing indices below the declared count, a total length within the declared one, a revision equal to its chunk count while open, and chunks stored with exactly the recorded length and hash |
| TransferReaders.NoNewOverdue | _black_hole_void/src/lib.rs:1304-1319 | no request leaves a transfer open past its deadline that was not so before |
| TransferReaders.CleanupLeavesNoneOverdue | _black_hole_void/src/lib.rs:1321-1348 | a cleanup pass over the active set, with anything interleaved, leaves no transfer open past its deadline |
| TransferRefusals.RefusalsExplained | _black_hole_void/src/lib.rs:1244-1616 | whatever the state, a refused request has the defect that its error names |
| TransferRefusals.ClosedRefused | _black_hole_void/src/lib.rs:1304-1616 | a transfer that is closed or whose lease is over refuses chunks and commits, and nothing else is wrong with them |
| TransferAliasing.AliasUndoesCommit | _black_hole_void/src/lib.rs:1244-1254 | from every state with a committed transfer, a plain upload of an encoded record and an abort addressed to it undo the commit |
| TransferReplay.ResolvesExactlyCommitted | _black_hole_flux/src/ops.rs:142-184 | resolution succeeds exactly on committed transfers and returns exactly their content |
| TransferReplay.ResolveTransferRaw | _black_hole_flux/src/ops.rs:142-184 | the download loop, each request against a later server state, returns what resolution in its first state means |
| TransferReplay.DownloadExactly | _black_hole_mass/src/lib.rs:898-972 | the whole polling loop, each request against a later server state: it returns bytes if and only if its last inspection sees the transfer committed, and then exactly the committed content |
| TransferReplay.DownloadCompletes | _black_hole_mass/src/lib.rs:898-972 | if the transfer is never aborted and is committed by some request, the loop returns the content if and only if each earlier poll that finds it open ends within the lease |
| TransferReplay.DownloadCommittedTransfer | _black_hole_mass/src/lib.rs:898-972 | the loop as written computes the specified result |
| TransferReplay.StagingKeeps | _black_hole_mass/src/lib.rs:920-934 | staging the chunks of a snapshot at later states stages nothing but the transfer's data at each index, misses no listed chunk, and fails only if the transfer was aborted |
| TransferReplay.Assemble | _black_hole_mass/src/lib.rs:935-960 | removing staged chunks one by one and hashing them gives the staged chunks in index order, or the specified error |
| TransferReplay.ResolvesOnlyDeclared | _black_hole_flux/src/ops.rs:142-184 | even from a server that keeps no invariant the resolver returns only bytes of the count, length and hash that a committed record declares |
| TransferReplay.DownloadsOnlyDeclared | _black_hole_mass/src/lib.rs:898-972 | so does the polling loop, for a record that it has seen |
| TransferReplay.StagesOnlyDescribed | _black_hole_mass/src/lib.rs:920-934 | nothing is staged but data with the index, length and hash of a listed chunk |
| LiveStream.FrameReceiver.Apply | _black_hole_mass/src/lib.rs:1264-1338 | the frame automaton's new state and result, frame by frame |
| LiveStream.UploadFrameIsRequest | _black_hole_void/src/lib.rs:624-656 | a producer frame acts on the server as at most one ordinary transfer request |
| LiveStream.StepOk | _black_hole_void/src/lib.rs:845-896 | every step of server, stream and receiver keeps: frames in flight and the receiver's bytes agree with the record (who may open a stream is `OnlyAuthorizedStream`) |
| LiveStream.OpenExactly | _black_hole_void/src/lib.rs:796-811 | a download stream opens if and only if the record exists and declares the hash of the ticket's authorization, and then sends its declaration |
| LiveStream.OnlyAuthorizedStream | _black_hole_void/src/lib.rs:796-843 | over every run, what is sent, received or returned belongs to a record whose declared authorization is the ticket's; with another authorization than its record's a stream sends, delivers and returns nothing, ever |
| LiveStream.AbortEndsStream | _black_hole_void/src/lib.rs:812-843 | after an abort a stream that has sent its snapshot sends the abort notice and ends, and one that cannot read a chunk ends there |
| LiveStream.NoticeIsDelivered | _black_hole_mass/src/lib.rs:1332-1336 | a receiver that reads the notice before its transfer is complete returns the error, and nothing after it |
| LiveStream.LiveReceiveIsCommitted | _black_hole_mass/src/lib.rs:1264-1338 | under every interleaving of frames, requests in any order, cleanup and polls, a live receiver that returns Ok does so only after the commit, with exactly the committed bytes, of the declared length and hash |
| LiveFrames.FedExactly | _black_hole_mass/src/lib.rs:1264-1338 | over all frame sequences, honest or not: a receiver reads on if and only if it was fed the declaration of its ticket and then intact chunks in order that agree with the ticket's header, and it holds their data |
| LiveFrames.ReceivedExactly | _black_hole_mass/src/lib.rs:1248-1338 | a receiver returns exactly when such a sequence has the declared number of chunks and length and ends with a commit of the declared hash, which is the hash of the returned bytes |
| LiveFrames.LiveReceiveIsAnnounced | _black_hole_mass/src/lib.rs:1248-1338 | over every interleaving, returned bytes belong to a committed record whose whole declaration is the ticket's, and begin with the ticket's header |
| UploadStream.AcceptedInOrder | _black_hole_void/src/lib.rs:624-735 | over every run the frames that an upload stream accepts are chunks 0, 1, ... in order, then at most one commit or abort |
| UploadStream.UnauthorizedChangesNothing | _black_hole_void/src/lib.rs:659-674 | a producer without the declared authorization accepts nothing and changes nothing, whatever else happens |
| UploadStream.UploadHolds | _black_hole_void/src/lib.rs:624-735 | over every run and interleaving the record of an upload stream is the declared one and its data begin with the accepted chunks, unless it was aborted; an accepted commit or abort leaves it so |
| UploadStream.CommittedUpload | _black_hole_void/src/lib.rs:624-735 | a stream whose commit was accepted has delivered: the content begins with all it sent, and is exactly that if it sent every chunk |
| UploadStream.PublicationAccepted | _black_hole_void/src/lib.rs:659-705 | with the declared authorization and within the lease every frame of a publication is accepted, up to the commit |
| Publication.SplitMatches | _black_hole_mass/src/lib.rs:780-851 | the producer's split has the declared number of chunks, none empty or too long, and loses nothing |
| Publication.FrameAccepted | _black_hole_mass/src/lib.rs:1191-1219 | the server accepts the next frame of a publication, and then holds exactly one more piece |
| Publication.OthersKeep | _black_hole_void/src/lib.rs:1244-1616 | any request that touches none of the publication's ids leaves what it has stored so far |
| Interleaving.MoveKeeps | _black_hole_void/src/lib.rs:845-896 | in every interleaving the receiver holds exactly the first pieces, and exactly the following frames are in flight |
| RoundTrip.PublicationCommits | _black_hole_mass/src/lib.rs:780-851 | interleaved with any requests to other ids and with a live stream, every frame of a publication of at most 10,000 chunks is accepted within the lease, and after the commit the content is the artifact |
| RoundTrip.FairStreamCompletes | _black_hole_void/src/lib.rs:845-896 | after the commit, from every reachable state of stream, channel and receiver, any schedule of 2n + 5 rounds in which each kind of step gets a turn ends with the receiver returning exactly the artifact |
| RoundTrip.StagedDownloadCompletes | _black_hole_mass/src/lib.rs:898-972 | the polling download started any time after the begin request, whatever is interleaved with its requests: it returns exactly the artifact if and only if its polls before the commit end within the lease |
| RoundTrip.PublicationComesBack | _black_hole_mass/src/lib.rs:780-851 | the round trip in one statement: over every interleaving the live receiver never fails, has the artifact when the stream is drained, and drains under every fair continuation after the commit; the polling download returns the artifact exactly when its polls before the commit end within the lease, and the resolver returns it from the commit on |
| VoidServer.Server.UploadObject | _black_hole_void/src/lib.rs:898-960 | new state and reply of a plain upload, managed objects excluded; the invariant is kept |
| VoidServer.Server.BeginTransfer | _black_hole_void/src/lib.rs:1350-1408 | new state and reply of a begin request, all rejections included; the invariant is kept and an accepted transfer is open |
| VoidServer.Server.UploadChunk | _black_hole_void/src/lib.rs:1410-1496 | new state and reply of a chunk request, after lease expiry; the invariant is kept and an accepted chunk is the transfer's data at its index |
| VoidServer.Server.Inspect | _black_hole_void/src/lib.rs:1498-1508 | new state and reply of an inspection, after lease expiry; the reply is the record that the server then holds |
| VoidServer.Server.HashChunks | _black_hole_void/src/lib.rs:1510-1595 | the incremental hash over downloaded chunks is the hash of their concatenation, or the first failure |
| VoidServer.Server.Commit | _black_hole_void/src/lib.rs:1510-1595 | new state and reply of a commit request; the invariant is kept, and on success the transfer delivers content of the declared length and of the given hash |
| VoidServer.Server.Abort | _black_hole_void/src/lib.rs:1597-1616 | new state and reply of an abort request; on success the transfer is aborted and none of its chunk objects is left |
| VoidServer.Server.AbortLocked | _black_hole_void/src/lib.rs:1277-1302 | chunk objects deleted one by one, record rewritten, active set updated |
| VoidServer.Server.ExpireLocked | _black_hole_void/src/lib.rs:1304-1319 | an open transfer past its deadline is aborted, any other is untouched |
| VoidServer.Server.Cleanup | _black_hole_void/src/lib.rs:1321-1348 | one iteration of the cleanup task; the transfer is not overdue afterwards, and one without a readable record leaves the active set |
| Placement.SelectInstanceTarget | _black_hole_mass/src/lib.rs:3602-3669 | the selection loops compute the specified least-loaded target or the right error |
| Placement.CountRoutes | _black_hole_mass/src/lib.rs:3602-3669 | the route counts per target are the loads |
| PlacementTree.BestIsLeast | _black_hole_mass/src/lib.rs:3602-3669 | a target is chosen exactly when one serves the operation and has room, and it is the first of the least loaded ones: the node itself before its workers, workers by token |
| PlacementTree.StartKeeps | _black_hole_mass/src/lib.rs:3681-3766 | a start keeps the tree invariant and every capacity, and adds exactly the new id |
| PlacementTree.StartSucceedsIffRoom | _black_hole_mass/src/lib.rs:3681-3766 | in a steady tree a start of a new id succeeds if and only if total occupancy is below total capacity; the second local limit check never fires |
| PlacementTree.StartErrors | _black_hole_mass/src/lib.rs:3602-3766 | in any tree a start fails only because the id is placed, nothing at the root serves the operation, or what serves it on the way is full, and says which |
| PlacementExact.NeverStrandsExactly | _black_hole_mass/src/lib.rs:3681-4275 | an idle tree of bounded capacity is steady for an operation if and only if after every run of starts and shutdowns a start of a new id succeeds exactly when there is room |
| PlacementExact.NeverStrandsUnbounded | _black_hole_mass/src/lib.rs:3681-4275 | the same for a tree with an unbounded root, which the type of the limit allows although a server resolves its own to a number |
| PlacementTree.ShutdownKeeps | _black_hole_mass/src/lib.rs:4239-4275 | a shutdown succeeds exactly for routed ids, reaches the host, and removes exactly that id; otherwise it says that the id is not running |
| PlacementTree.HostedWhereRouted | _black_hole_mass/src/lib.rs:3453-3460 | a node hosts an id if and only if following routes ends there, so each routed id is hosted on exactly one node |
| PlacementTree.HostedIsOccupancy | _black_hole_mass/src/lib.rs:3453-3460 | root occupancy is the sum of the instances hosted in the tree |
| PlacementTree.RoomIsTotal | _black_hole_mass/src/lib.rs:3223-3236 | below the largest usize some target has room if and only if the occupancy is below the summed capacity |
| PlacementTree.RunsKeepPlacement | _black_hole_mass/src/lib.rs:3681-4275 | all of this after every run of starts and shutdowns; no target exceeds its capacity |
| PlacementTree.IdleIsOk | _black_hole_mass/src/lib.rs:3308-3370 | a tree of registered workers on which nothing was started satisfies the invariant |
| PlacementTree.MixedCapabilitiesStrandRoom | _black_hole_mass/src/lib.rs:3602-3669 | a concrete idle tree with mixed capabilities in which a start fails although capacity is left |
| Session.Instance.HandlePerturbUp | _black_hole_mass/src/lib.rs:5038-5063 | new session state, engine trace and success, frozen and failing cases included; frozen sessions call nothing, failures change nothing |
| Session.Instance.HandleInfer | _black_hole_mass/src/lib.rs:5074-5155 | state transitions of inference, from Idle too; no engine call (what they admit next is `SessionHistory.AcceptedExactly`) |
| Session.Instance.HandlePerturbDown | _black_hole_mass/src/lib.rs:5161-5187 | new session state, engine trace and success; frozen sessions call nothing, failures change nothing |
| Session.Instance.HandleFuse | _black_hole_mass/src/lib.rs:5211-5298 | weights are captured from Idle only; a fusion that fails later has still captured them, and nothing else changes |
| Session.Instance.HandleOptimize | _black_hole_mass/src/lib.rs:5305-5362 | new session state, engine trace, step counter and frozen flag; one update unless frozen, and past warmup the flag is the schedule's |
| Session.Instance.HandleShutdown | _black_hole_mass/src/lib.rs:4604-4637 | the session ends whether or not the engine can be unloaded, which decides only the reply |
| Session.EngineCallsFollowGrammar | _black_hole_mass/src/lib.rs:5038-5362 | on every run, with any failures and frozen cycles, successful engine calls form a prefix of ((up down)? update)*, and weights are captured only between whole cycles |
| Session.FrozenConstantWithinCycle | _black_hole_mass/src/lib.rs:4871-4894 | over every run without a successful optimization the frozen flag stays as it is |
| SessionHistory.AcceptedExactly | _black_hole_mass/src/lib.rs:5038-5362 | over every run a request succeeds if and only if the session was not shut down, everything outside it goes well, and the requests that succeeded since the cycle began admit it: a perturbation first, its reversal once and after an inference, an optimization after an inference with the perturbation reversed, a capture between cycles |
| SessionHistory.PerturbationCycleCompletes | _black_hole_mass/src/lib.rs:5038-5362 | from every running idle session perturb-up, one or more inferences, perturb-down, one or more inferences and optimize all succeed, end idle and call exactly up, down and update, or nothing when frozen |
| SessionHistory.PlainCycleCompletes | _black_hole_mass/src/lib.rs:5074-5362 | so do inferences and an optimization without a perturbation, which call update alone |
| SessionHistory.ScheduleOfFirstPeriod | _black_hole_mass/src/lib.rs:4833-4845 | without a phase the schedule says nothing up to the end of warmup, then `train` unfrozen steps, then frozen ones to the end of the period |
| SessionHistory.ScheduleRepeats | _black_hole_mass/src/lib.rs:4833-4845 | it repeats after every period, while the `u32` addition does not wrap |
| SessionHistory.PhaseIsHeadStart | _black_hole_mass/src/lib.rs:4833-4845 | a phase is the same schedule started that many steps earlier |
| SessionHistory.PhaseWrapsAround | _black_hole_mass/src/lib.rs:4833-4845 | of a phase only what is left of the last period counts |
| SessionHistory.ScheduleWraps | _black_hole_mass/src/lib.rs:4833-4845 | where the `u32` addition wraps the schedule starts over, whatever its phase |
| Session.FirstWindowTrainsTwice | _black_hole_mass/src/lib.rs:4847-4894 | a schedule and a run whose first `period` optimizations train twice instead of once |
| Session.WindowAfterWarmupTrainsTwice | _black_hole_mass/src/lib.rs:4847-4894 | the same after a warmup of one step |
| Session.WindowTrainsExactly | _black_hole_mass/src/lib.rs:4804-4846 | any `period` consecutive steps past warmup contain exactly `train` unfrozen ones |
| Session.RunUpdates | _black_hole_mass/src/lib.rs:5324-5361 | past warmup the engine updates of a run are the schedule's unfrozen steps |
| Session.WindowOfOptimizes | _black_hole_mass/src/lib.rs:5324-5361 | `period` successful optimizations past warmup call the engine update exactly `train` times |
| Session.RunScheduled | _black_hole_mass/src/lib.rs:4871-4894 | every reachable session meets the premise of the window theorem once warmup is over |
| Session.RunUpdatesFromWarmup | _black_hole_mass/src/lib.rs:4871-4894 | the engine updates of a run that starts within warmup: the flag as it is up to and including the first optimization past warmup, the schedule's steps after that |
| Session.FirstWindowExactly | _black_hole_mass/src/lib.rs:4847-4894 | the first `period` optimizations past any warmup train `train` times if and only if the flag in force is the schedule's for step `warmup + period` |
| Session.FirstWindowRepeatsStepOne | _black_hole_mass/src/lib.rs:4847-4894 | without warmup: if and only if steps 1 and `period` of the schedule agree |
| Tunnel.TcpTunnelSession.RegisterCall | _black_hole_mass/src/lib.rs:1601-1626 | a call takes the next id and registers its waiter |
| Tunnel.TcpTunnelSession.HandleFrame | _black_hole_mass/src/lib.rs:1498-1556 | one turn of the reader loop; responses without a waiter are dropped |
| Tunnel.TcpTunnelSession.Close | _black_hole_mass/src/lib.rs:1573-1599 | closing answers every waiter, and nothing else |
| Tunnel.AnswersAreThePeersOwn | _black_hole_mass/src/lib.rs:1498-1641 | over every run of two ends, with loss, closes and handlers finishing in any order, an answer that is not the closing notice was produced by the peer's handler for that very request |
| Tunnel.WaitsOrAnswered | _black_hole_mass/src/lib.rs:1601-1626 | every issued request is waiting or answered, never both, and ids are not reused |
| Tunnel.AnsweredOnce | _black_hole_mass/src/lib.rs:2817-2834 | what a call returned and what a handler produced for an id is never replaced |
| Tunnel.StepKeeps | _black_hole_mass/src/lib.rs:1498-1641 | the invariant of both directions: every request is in one place only, and frames of the two directions never mix |
| Tunnel.NoCallHangs | _black_hole_mass/src/lib.rs:1601-1641 | without loss or close, once nothing is under way every call has its peer's answer, or was told that the session is closed because its own request could not be sent |
| Tunnel.FailedSendIsAnswered | _black_hole_mass/src/lib.rs:1601-1626 | a call whose request cannot be sent is told so at once, waits no longer, and is told nothing else ever after |
| Tunnel.EveryCallReturns | _black_hole_mass/src/lib.rs:1498-1641 | without loss or close, whatever is under way may move on in any order: after a bounded number of moves nothing moves, and then every call has its answer |
| Tunnel.StartedInOrder | _black_hole_mass/src/lib.rs:1498-1641 | unless frames are lost, a peer starts its handlers in exactly the order in which the requests were sent |
| Tunnel.WaitsAfterClose | _black_hole_mass/src/lib.rs:1573-1626 | over every run, the waiters on a closed end are unanswered calls registered after the close, and no more of them than were admitted before it |
| Tunnel.CloseLeavesWaiterExactly | _black_hole_mass/src/lib.rs:1573-1626 | after a close some continuation has a waiter, and some strands one for good, if and only if an admitted call was unregistered at that moment |
| Tunnel.StrandedForever | _black_hole_mass/src/lib.rs:1573-1641 | such a call, once lost, waits through every continuation without another close |
| Tunnel.LateCallIsStranded | _black_hole_mass/src/lib.rs:1573-1641 | a concrete run that strands a call on a closed end |
| WarpMergeCode.Validate | _black_hole_beam/src/model.rs:364-414 | `validate` reports a problem if and only if the graph breaks a rule, each problem names a real one, and otherwise it returns exactly the connected pairs |
| WarpMergeCode.CheckCells | _black_hole_beam/src/model.rs:369-382 | a problem is reported exactly when an id or a port occurs twice, and names one that does; the owner map is right |
| WarpMergeCode.MergeAppearance | _black_hole_beam/src/model.rs:191-362 | the recursive merge loop computes the specified merge (its order is `WarpMergeOrder.MergedCellsAscend` and `FreshIdsByRank`) |
| WarpMergeCode.AttachNested | _black_hole_beam/src/model.rs:309-358 | renaming, pushing and connecting one nested graph; no map lookup can miss |
| WarpMergeCode.FromAppearance | _black_hole_beam/src/model.rs:150-182 | a graph results exactly when the sun is finalized, not empty, nothing is reported and the merged graph is valid |
| WarpMerge.LookupsHit | _black_hole_beam/src/model.rs:309-346 | the id and port maps of a valid nested graph cover it and are injective |
| WarpMerge.SubIsSmaller | _black_hole_beam/src/model.rs:270-274 | re-keyed sub-expansions are strictly fewer, so the recursion ends |
| WarpMergeProofs.MergeValidates | _black_hole_beam/src/model.rs:191-362 | a valid sun stays valid whatever family is merged into it, with fresh names above all used ones |
| WarpMergeProofs.AttachAcyclic | _black_hole_beam/src/model.rs:335-358 | attaching a nested graph makes no cycle and hides none |
| WarpMergeProofs.MergeIsAcyclic | _black_hole_beam/src/model.rs:191-362 | merging valid acyclic suns nested to any depth gives an acyclic graph |
| WarpMergePlaces.JoinedSunsEmbedded | _black_hole_beam/src/model.rs:309-358 | every joined sun is in the merged graph with the same cells and edges, under ids and ports used neither by the outer sun nor by another joined sun, and entered only by the edge from its boundary cell to its one sink |
| WarpMergePlaces.NestedSunsEmbedded | _black_hole_beam/src/model.rs:276-303 | the nested sun of a cell of the sun joins, and is embedded like that, exactly when it is finalized, nothing below it is reported as unknown, its merged graph is valid and it has one sink |
| WarpMergeProofs.OuterUntouched | _black_hole_beam/src/model.rs:202-233 | the outer cells and edges are in the result as they were, and no new edge enters an outer cell |
| WarpMergeDangling.ValidatesExactly | _black_hole_beam/src/model.rs:364-414 | a sun with unique names passes `validate` after merging, whatever cells its edges name, exactly when the merge supplies each edge: both ends are cells or handed-out ids, they differ, and the target owns the port |
| WarpMergeFlows.FlowsExactly | _black_hole_beam/src/model.rs:191-362 | one cell leads to another in a merged graph exactly when it flows there through the suns: along own edges, dangling edges, connectors, and inside joined suns |
| WarpMergeFlows.AcyclicRecursively | _black_hole_beam/src/model.rs:191-362 | for every sun with unique names and every family, dangling edges at any depth included: the merged graph is acyclic exactly when each sun that went in is acyclic without its dangling edges and none of these flows back to its start |
| WarpMergeFlows.AcyclicDangling | _black_hole_beam/src/model.rs:191-362 | one level of it: acyclic exactly when it is so without the dangling edges of the outer sun and none of these flows back to its start |
| WarpMergeFlows.HandedOut | _black_hole_beam/src/model.rs:309-333 | the cells of each joined sun get consecutive ids from the next free one on |
| WarpMergeOrder.MergedCellsAscend | _black_hole_beam/src/model.rs:222 | for every sun and every family the merged cells stand in the order of their ids, strictly with unique ids, whatever order the suns list them in |
| WarpMergeOrder.FreshIdsByRank | _black_hole_beam/src/model.rs:309-314 | each cell of a joined sun gets the next free id plus the number of its cells with smaller ids, so fresh ids keep the order of the nested ones |
| WarpMergeOrder.FirstFreeId | _black_hole_beam/src/model.rs:236 | the first free id is one more than the largest of the sun, and 1 without any |
| WarpMergeOrder.OneSinkExactly | _black_hole_beam/src/model.rs:291-306 | a sun has one listed sink exactly when one cell has no outgoing edge |
| WarpMergeResults.UnknownExactly | _black_hole_beam/src/model.rs:264-267 | exactly which warp suns are reported as belonging to an unknown cell |
| WarpMergePlaces.CellsConserved | _black_hole_beam/src/model.rs:335-343 | the merged cells are exactly the sun's own and one copy of each cell of each joined sun, and so is their number |
| WarpMergePlaces.EdgesConserved | _black_hole_beam/src/model.rs:344-358 | the merged edges are exactly the sun's own, the copies of those of the joined suns, and one connector for each |
| WarpMergePaths.MergePaths | _black_hole_beam/src/model.rs:243-333 | exactly the warp cells have a path, no two share one, and each path leads through the appearances to the cell that was copied |
| WarpMergeLimits.DanglingEdgeMakesCycle | _black_hole_beam/src/model.rs:364-414 | an invalid acyclic sun becomes a graph that passes `validate` and is cyclic |
| WarpMergeLimits.NestedDanglingEdgeMakesCycle | _black_hole_beam/src/model.rs:276-289 | the same for a nested sun inside a valid one |
| WarpMergeLimits.UnknownCellUnreported | _black_hole_beam/src/model.rs:264-267 | a warp sun for a cell that the appearance lacks, unreported |
| WarpFetch.FetchWarpAppearances | _black_hole_beam/src/live.rs:99-137 | the worklist ends, on cyclic journeys too, records answers only, and at the top level only for cells of the sun; with unique node ids it computes exactly the recursive definition: appearances for the paths that resolve within 16 levels, diagnostics for those that fail or lie one too deep |
| WarpFetch.ResolvesOrFails | _black_hole_beam/src/live.rs:115-133 | the two key sets are disjoint, and within the depth limit every named warp cell is in one of them |
| WarpFetch.Beginnings | _black_hole_beam/src/live.rs:109-133 | a path is named only if every beginning of it resolves |
| WarpPipeline.FetchedWellKeyed | _black_hole_beam/src/live.rs:99-137 | every fetched key names a cell of the appearance one level up |
| WarpPipeline.MergeReportsNothing | _black_hole_beam/src/model.rs:264-267 | merging a well-keyed family reports no unknown cell |
| WarpPipeline.TopKeysReportNothing | _black_hole_beam/src/model.rs:264-267 | a family whose one-cell keys name cells of the sun reports no unknown cell |
| WarpPipeline.NestedReportsNothing | _black_hole_beam/src/model.rs:276-303 | a nested sun of a well-keyed family reports nothing either, so it joins exactly when its merged graph is valid and it has one sink |
| WarpPipeline.FetchAndBuild | _black_hole_beam/src/live.rs:38-61 | fetching and building a valid sun gives a graph exactly when it is finalized and not empty, whatever the journeys answer; the graph is valid, keeps the sun's cells, and is acyclic if all answers are |
| Phases.RecentPhaseSteps | _black_hole_beam/src/visual.rs:201-219 | skipping whole turns gives, for every count, the last min(count, 4) entries of the round propagation 1, propagation 2, optimization, read on from the given phase |
| Phases.PhasePath | _black_hole_beam/src/visual.rs:181-199 | the stretch of that round up to the first occurrence of a phase, nothing to stay, and one step to Idle; the fallback after four steps is never taken |
| Phases.RoundExactly | _black_hole_beam/src/visual.rs:173-179 | the n-th phase after each of the four, written out for every n |
| Phases.PathExactly | _black_hole_beam/src/visual.rs:247-280 | an observation replays the end of the exact run when that leads to the observed phase, and else the stretch of the round up to it |
| Phases.CellVisualState.ObserveNode | _black_hole_beam/src/visual.rs:247-305 | new state of an observation |
| Phases.CellVisualState.BeginNextTransition | _black_hole_beam/src/visual.rs:385-402 | new state of the next transition, entries already shown skipped |
| Phases.CellVisualState.AdvanceOne | _black_hole_beam/src/visual.rs:307-312 | new state of a tick |
| Phases.ObserveKeeps | _black_hole_beam/src/visual.rs:247-305 | after every accepted observation the queue holds at most four entries, is a chain of legal steps and ends, or the display stands, at the observed progress; late observations change nothing |
| Phases.RunShowsLastAccepted | _black_hole_beam/src/visual.rs:247-312 | over every run of polls and ticks the display heads for the last accepted observation |
| Phases.TicksDrain | _black_hole_beam/src/visual.rs:307-402 | as many ticks as queued entries show them all and rest at the last observation |
| Phases.BeginExactly | _black_hole_beam/src/visual.rs:385-402 | a transition shows the first queued entry that is not shown yet, keeps the later ones and drops the others |
| Phases.ShownForASecond | _black_hole_beam/src/visual.rs:307-402 | whatever comes in, a shown phase stays for at least a second, and the frozen flag of an optimization is the one polled when its second propagation came up |
| Phases.MissedStepsAreShown | _black_hole_beam/src/visual.rs:247-402 | up to four steps missed by polling are all shown, in the order of the round, a second apart, the last with the polled progress |
| Schema.SchemaExactly | _black_hole_spec/src/lib.rs:1120-1128 | accepts exactly distinct port names, and names a repeated one otherwise |
| Schema.TensorsExactly | _black_hole_spec/src/lib.rs:1130-1201 | accepts if and only if names match, dtypes are accepted and one assignment of sizes to labels explains every shape; every error names a real defect |
| Schema.ValidateTensors | _black_hole_spec/src/lib.rs:1130-1201 | the checker as written, with its map of tensors and its running bindings, returns the specified outcome |
| Schema.AxesExactly | _black_hole_spec/src/lib.rs:1168-1199 | the axes of one tensor fit the grown bindings, every binding occurs in some tensor, and earlier bindings stay; an error names a real defect |
| Schema.ExplainedDoesNotConform | _black_hole_spec/src/lib.rs:1130-1201 | a named defect and conformance exclude each other |
| TensorOrder.ByPortIsPortOrder | _black_hole_spec/src/lib.rs:1058-1063 | sorting accepted tensors by port position puts exactly one tensor, the right one, at every port |
| TensorOrder.ConformingIsOneToOne | _black_hole_spec/src/lib.rs:1130-1201 | with distinct ports, accepted tensors and ports are one to one |
| HeaderOffsets.SortedOffsetsExactly | _black_hole_spec/src/lib.rs:873-874 | entries written back to back and read in any order are contiguous again after the sort if and only if none with data was read before another of the same offset |
| HeaderOffsets.ByteSizeExactly | _black_hole_spec/src/lib.rs:873-877 | the size of an entry is the product of its sizes in its element type, unless a product on the way overflows or it ends within a byte |
| FrameCode.EncodeDescriptor | _black_hole_spec/src/lib.rs:923-978 | the growing buffer ends as the specified frame, or with the specified error |
| FrameCode.DecodeDescriptor | _black_hole_spec/src/lib.rs:991-1070 | decoding as specified, every rejection included: foreign contracts and sides, each schema error and unsupported dtypes too (which frames it accepts is `FrameProofs.AcceptsWholeFrames`) |
| FrameCode.ValidateHeader | _black_hole_spec/src/lib.rs:810-909 | validating a stream header as specified, metadata entry, dtype conversion and schema errors included (which headers it accepts is `FrameProofs.AcceptsWholeHeaders`) |
| FrameProofs.DecodesExactly | _black_hole_spec/src/lib.rs:991-1109 | an encoded bundle decodes for a contract and a side if and only if id, version, digest and side are those it was encoded for and its tensors conform to the ports; any other decoder names the first difference |
| FrameProofs.AcceptsWholeFrames | _black_hole_spec/src/lib.rs:991-1109 | over all bytes: a frame is accepted if and only if it is "BHSTEN01", an envelope that names this contract, side, version and encodings, and metadata and tensors of the stated lengths that read and conform |
| FrameProofs.AcceptedFrameCarriesContract | _black_hole_spec/src/lib.rs:1074-1109 | every accepted frame carries the contract and the side that it was checked against |
| FrameProofs.HeaderValidatesFor | _black_hole_spec/src/lib.rs:810-909 | the header of an encoded bundle validates for a contract and a side if and only if these are its own, the tensors conform to the ports and no empty tensor stands ahead out of name order; any other validator names the first difference |
| FrameProofs.AcceptsWholeHeaders | _black_hole_spec/src/lib.rs:810-909 | over all bytes: exactly which headers validate, and for which frame length |
| FrameProofs.AcceptedHeaderCarriesContract | _black_hole_spec/src/lib.rs:1074-1109 | every header that validates carries the contract and the side that it was checked against |
| FrameProofs.EntriesExactly | _black_hole_spec/src/lib.rs:862-873 | a header reads if and only if every key but the reserved one is a tensor and that one a map of strings, and its entries are those tensors |
| FrameProofs.FrameRoundTrip | _black_hole_spec/src/lib.rs:923-1070 | decoding an encoded bundle returns its metadata and its tensors in port order |
| FrameProofs.NoPrefixNoExtension | _black_hole_spec/src/lib.rs:1022-1036 | no proper beginning and no extension of an accepted frame is accepted |
| FrameProofs.StreamHeaderIsPrefix | _black_hole_spec/src/lib.rs:755-802 | the stream header of an encoded frame is the frame up to its tensor data |
| HeaderOffsets.ClashExactly | _black_hole_spec/src/lib.rs:863-874 | entries written back to back and read sorted by name clash if and only if an empty one is followed, empty ones skipped, by one with data whose name sorts before it |
| FrameProofs.HeaderValidatesExactly | _black_hole_spec/src/lib.rs:810-909 | validating the stream header of an encoded bundle returns the exact frame length, unless an empty tensor stands ahead, in write order, of one with data whose name sorts before it; then it fails |
| FrameProofs.HeaderOfFullTensorsValidates | _black_hole_spec/src/lib.rs:810-909 | without empty tensors the header is always accepted with the exact length |
| FrameProofs.HeaderFixesLength | _black_hole_spec/src/lib.rs:905-908 | every accepted frame that begins with a validated header has the announced length |
| FrameLimits.EmptyTensorRejectsHeader | _black_hole_spec/src/lib.rs:810-909 | a bundle of two tensors that encodes, whose frame decodes, and whose stream header is rejected |
| Multipart.MultipartServer.HandleBegin | _black_hole_void/src/lib.rs:1017-1054 | new state and reply of an upload begin |
| Multipart.MultipartServer.HandlePart | _black_hole_void/src/lib.rs:1056-1110 | new state and reply of a part |
| Multipart.MultipartServer.HandleFinish | _black_hole_void/src/lib.rs:1112-1181 | new state and reply of a finish |
| Multipart.MultipartServer.StringTogether | _black_hole_void/src/object_store.rs:309-331 | the in-memory store strings the parts together in order and closes the session |
| Multipart.MultipartServer.HandleRange | _black_hole_void/src/lib.rs:1618-1659 | the reply to a ranged download, with the default range read |
| Multipart.MultipartServer.UploadFile | black-hole-sun/src/void_client.rs:454-514 | a file of at most 64 MiB is uploaded at once, a larger one in any pieces that its reads return; it succeeds for small files and for at most 10,000 pieces, and the object and its recorded size are the file's |
| Multipart.MultipartServer.DownloadToFile | black-hole-sun/src/void_client.rs:519-549 | the ranged loop rewrites exactly the object, for every length, multiples of the chunk size included |
| Multipart.FinishExactly | _black_hole_void/src/lib.rs:1056-1181 | with parts in any order and repeats, among other uploads, finishing succeeds exactly on 1..n and yields the last write of each part |
| Multipart.RecordedSizeExactly | _black_hole_void/src/lib.rs:1092-1172 | the recorded size is the object's length if and only if no write with data was replaced |
| Multipart.RepeatedPartCountsTwice | _black_hole_void/src/lib.rs:1092-1172 | one part written twice: an object of one byte with two on record |

## Left out

- PlacementTree.StartSucceedsIffRoom: asks that the occupancy is below the largest `usize`, because the capacity sum saturates there; so do the two lemmas of `PlacementExact`.
- WarpFetch.FetchWarpAppearances: the recursive definition names cells by id, so the exact result asks for unique node ids within each sun; one fixed answer per journey. Termination needs neither.
- WarpMergeProofs.MergeValidates: ids and ports are unbounded numbers; the source's `u32` additions are assumed not to overflow.
- Tunnel.AnswersAreThePeersOwn: request ids are unbounded; wrap-around after 2^64 calls is not modelled.
- FrameProofs.FrameRoundTrip: excludes a tensor called `__metadata__`, which collides with the safetensors header, and frames of 2^64 bytes or more.
- FrameLimits.EmptyTensorRejectsHeader: asks that safetensors ranks doubles above floats, as its dtype enumeration does; that library is not part of this model.
- Multipart.RecordedSizeExactly: the `u64` saturation of the recorded size is not modelled.
- RoundTrip.PublicationComesBack: requests that address a plain or chunk object which decodes as a record are not among the interleaved ones; `TransferDurability` says what they can do. Lease expiry before the commit is left to `TransferReplay.DownloadExactly` and `LiveStream.LiveReceiveIsCommitted`.
- Failing store operations of the Void server; an upload is one atomic step, and multipart ids are disjoint from transfer ids.
- `WaitRegistry`, notifications, and waiting downloads.
- QUIC and TCP connections, TLS, frame I/O, clocks (every clock reading is a parameter), random ids (each fresh id is a parameter).
- The S3, filesystem, Postgres and fjall backends; `S3Store` range reads past the end of an object.
- `validate_artifact`, whose framing is that of `decode_descriptor` with undecoded metadata; the tensor check after a live receive; the second copy of the frame automaton in the client library.
- The engine itself, inference batching, checkpoints, and failing unloads on shutdown (they drop the model slot but keep the route).
- Workers that disconnect, re-register or change capacity while instances run. A worker whose own capacity is unbounded is advertised as one instance, as the source does.
- Labels, colours, layout, grad-step and frozen flags of merged cells (they ride along as payload), and the sorted order of the final edge list, which is a set here.
- The text of problems and diagnostics.

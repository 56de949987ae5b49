# A verified model of the Greybus module core

Greybus carries operations (requests and responses) between a host and a module over numbered
cports.  This project models the parts of the module side that keep state, walk buffers or run
concurrently, and proves what they keep in every run and for every input:

- **The operation engine** of `greybus-core.c`: pending requests (`tx_fifo`), the receive queue
  and its semaphore, the worker thread, registration and unregistration, and operations that are
  reference counted between all of them.  `OperationEngine` is a state machine with one step for
  each region that the code runs under `irq_lock` and for each statement group of the worker;
  steps of all threads interleave freely, and the owner of an operation may destroy it anywhere,
  also inside or right after its callback.  `EngineInvariant`, `EngineOwnership`,
  `EngineStructure` and `EngineHistories` hold the inductive invariant, `EngineTheorems`,
  `EngineGuarantees` and `EngineDelivery` what follows from it for callers that keep to `Allowed`,
  `EngineServing` which messages are served and by what requests are claimed, `WorkerProgress` and
  `Completion` that a worker left alone serves what has arrived, completes what is answered and ends
  when it is asked to, `TimeoutSweep` what cleaning up timed-out requests does,
  `Resends` and `ResendRuns` what happens when a caller does not keep to `Allowed`, `Unregistration`
  what a flush leaves behind.  `CportDriver` is the class whose methods update the cport
  in place: each keeps the invariant, is a step or an undisturbed run of the state machine
  (`QuietRuns`), and says what changes for the owners of operations (`CallEffects`).
- **Request ids** (`RequestIds`), **dispatch** (`Dispatch`), **responses** (`Responses`) and the
  **tape** (`Tape`) of the same file.
- **Manifests** (`greybus-manifest.c`): `Descriptors` is the grammar, `ManifestPatching` what a
  patch means, `ManifestPasses` what one pass over the bytes of a buffer does, `ManifestParser` the
  class whose methods parse, release and patch buffers in place, `ManifestGuarantees` what they do
  together.  `DeclaredManifests` encodes manifests from what they declare, and says what parsing and
  patching the bytes does to the declarations.  `BundleSlots` is the indexing of a bundle's cports.
- **Stream framing** (`TcpFraming`, `MuxFraming` over `Sockets` and `Wire`): sockets move an
  arbitrary number of bytes in each call.
- **The HID report buffers** (`HidPool`, `HidProgress`, `HidDriver`): the interrupt runs between any
  two instructions of the thread.
- **I2C and SPI transfers** (`Transfers`): how the two passes lay out the driver's buffers, and
  `TransferRequests` how the operations that a host asks for reach the driver.

`dafny verify dfyconfig.toml` checks everything.

Several properties hold only under a condition that the code does not test.  They are stated with
the exact condition and, unless the condition itself shows one, a concrete failing case:

- Sending a request again overwrites its response link without dropping the reference: when the
  answer to a send is attached, ownership stays exact if and only if the request had no response when
  it was sent and the worker was not attaching one; otherwise that response is never freed
  (`Resends.SendIsSafeIff`; `ResendRuns.SecondAnswerLeaksFirst` and `ResendRuns.EarlySendLeaksFirst`
  are runs from the start that leak).  Callers that keep to `Allowed` do not do this; what it asks is
  exactly that the request's history can go on (`Resends.SendableIff`).
- The id of a request is reset before the lock is taken: the pending requests keep their ids if and
  only if the operation whose send is entered is not one of them (`Resends.EntryKeepsIdsIff`;
  `ResendRuns.SecondEntryLosesResponse` is a run that loses a response).  `Allowed` forbids it.
- A send that has passed the `exit_worker` test is not stopped by the flush: tx_fifo is empty in
  every interleaving once the driver is unregistered if and only if, when the flush begins, no such
  call can still send a request (`Unregistration.FlushEmptiesIff`;
  `Unregistration.LateSendStaysPending` is a run in which one is left).
- `gb_operation_timeout` tests its guard the wrong way round: its comment wants to return when the
  timed-out operation is already queued, the code returns when it is not, so it never does what the
  comment wants (`CallEffects.WatchdogMeans`).  As written no run ever
  completes a request by timeout (`EngineDelivery.TimeoutsNeverFire`).  The other theorems cover
  the cleaning of timed-out requests as a step that may happen at any time.
- The out-of-memory response does not mark a request as answered: at most one response is sent
  under every outcome if and only if a response is asked for at most once
  (`Responses.AtMostOneIffAskedOnce`).  Every handler in the repository leaves the response to the
  engine, and then there is at most one (`Responses.HandledOnce`).
- An 8-bit wrap during patching can hide a string: a reference of the fragment still names the
  same string if and only if the base has no string under the shifted id, or an equal one
  (`ManifestPatching.ReferenceKeptIff`; `ManifestPatching.WrapLosesReference` is a base and a
  fragment for which it does not).
- The parser reads a descriptor's fields before it compares its size: it reads past a buffer if and
  only if the bytes that it cannot consume are four or five and begin a longer kind of descriptor
  (`ManifestPasses.ReadsBeyondIff`, with `ManifestPasses.AcceptedHeaderReadsBeyond` as a case);
  descriptors end to end never make it do so (`ManifestPasses.TiledStaysInside`).
- Where the patcher finds no descriptor it skips 22 bytes (an error number), and the size field of
  the blob has 16 bits: it gets to its end if and only if these steps end at the end of the fragment
  and the combined size fits.  Then the blob is a manifest, whatever the fragment's bytes were, and
  descriptors end to end are patched whole (`ManifestGuarantees.PatchThenParse`,
  `ManifestGuarantees.PatchedAnything`).
- Releasing a manifest removes cports by id: it undoes the parse if and only if no id was in the
  list before (`ManifestGuarantees.ParseThenRelease`).
- A HID pool can lose its receiver for good, in two windows of the report thread; it can accept
  another report if and only if it is not in one of the states called `Doomed`
  (`HidPool.AcceptsAgainIffNotDoomed`).  Releasing it frees every node but the one in receiving
  (`HidPool.FreedAllButReceiving`).
- SPI read lengths are added in 32 bits: the read slices lie inside the allocated response if and
  only if the sum is below 2^32 (`Transfers.ReadsFitIff`; `Transfers.WrappedReadsLeaveResponse` is a
  case where they do not), and the null receive set is used if and
  only if the sum wraps to 0 with a read in the list (`Transfers.NullSetUsedIffWrapsToZero`, and
  `Transfers.NullSetUsedIff` for unknown directions; `Transfers.WrappedSumUsesNullSet` is a case).
- Neither transfer handler compares the bytes to write with the request: the write slices lie inside
  the request if and only if the declared writes do (`Transfers.I2cWritesFitIff`,
  `Transfers.SpiWritesFitIff`, with the cases `Transfers.I2cWritesBeyond` and
  `Transfers.SpiWritesBeyond`), and a short SPI request makes the first pass read beyond it if and
  only if the descriptors that it holds are accepted (`Transfers.ReadsBeyondIff`, with the case
  `Transfers.ShortRequestReadsBeyond`).
- A tape record above 2048 bytes overflows the replay buffer (`Tape.OverflowsIff`), and a frame that
  declares less than its own header overflows the multiplexed receiver's
  (`MuxFraming.OverflowsIff`); `Tape.LongRecordOverflows` and `MuxFraming.ShortSizeOverflows` are
  cases.  Recorded tapes and frames that the sender accepts never do.

The documentation of `manifest_parse` speaks of a first pass that only identifies descriptors; the
code appends cports and raises the id maxima during that pass, before a descriptor's size is
checked, and a failing parse leaves the cports it has appended.  A header without descriptors is
rejected.  The model follows the code, up to the read or the copy that leaves a buffer; what the
source does after that is not modelled.

Sockets, allocators, clocks and device drivers appear as arbitrary answers or as parameters
(`sent`, `allocates`, `fits`, `timedOut`, a number of free objects).  `mikrobus` stands for the
build option `CONFIG_GREYBUS_MIKROBUS`.

## Model

| member | source | states |
|---|---|---|
| EngineTheorems.StepKeepsInv | subsys/greybus/greybus-core.c:322-418 | every step of every thread keeps exact ownership, list structure, thread positions, semaphore balance, id tickets and request histories |
| EngineTheorems.InitInv | subsys/greybus/greybus-core.c:1057-1093 | the state after gb_init satisfies the invariant |
| EngineTheorems.RunsAreSafe | subsys/greybus/greybus-core.c:378-418 | no interleaving touches a freed operation or dequeues from an empty queue |
| EngineServing.StepKeepsServes | subsys/greybus/greybus-core.c:378-418 | every step of every thread keeps: live messages have the id and type that they arrived with, the served requests and the one in hand are the requests taken, and only responses have claimed anything |
| EngineServing.RequestsAreServedInOrder | subsys/greybus/greybus-core.c:404-414 | over every run, the messages of request type that arrived are, in this order, those served, the one in hand and those still queued; none is served twice, and no response or timeout mark is ever served |
| EngineServing.ServedBeforeFreed | subsys/greybus/greybus-core.c:411-414 | over every run, a request that arrived is not freed before it was served |
| EngineServing.ClaimedByResponses | subsys/greybus/greybus-core.c:345-360 | over every run, a pending request is claimed only by a message that arrived with a response type, under the id that it arrived with |
| WorkerProgress.WorkerDrains | subsys/greybus/greybus-core.c:386-415 | from every reachable state with a worker, whatever times out: left alone for a number of regions that the semaphore and tx_fifo bound, it has taken every entry, served exactly the requests that had arrived, and ended if and only if it was asked to |
| WorkerProgress.UnregisteringEnds | subsys/greybus/greybus-core.c:526-550 | from every reachable state, without interference the worker ends, so the join returns, and then exactly the requests still pending are flushed |
| Completion.AnsweredIsCompleted | subsys/greybus/greybus-core.c:345-376 | from every reachable state: a pending request whose response is queued is off the list once the worker was left alone, claimed and completed exactly once, by its callback if and only if its sender asked for one (so a synchronous sender is woken), if fewer than 65535 ids were drawn since the oldest pending request |
| EngineGuarantees.CountersAreExact | subsys/greybus/greybus-core.c:921-958 | in every reachable state a live operation's counter is its number of owners, an operation is live exactly when it has one, and everything in a list or in a thread's hands is live |
| EngineGuarantees.FreedWithLastOwner | subsys/greybus/greybus-core.c:934-958 | a step frees an operation exactly when it takes its last owner away |
| EngineGuarantees.AttachIsSafeIffFirst | subsys/greybus/greybus-core.c:363-366 | storing the response keeps ownership exact if and only if the request had no response yet; otherwise the earlier response's counter stays one too high |
| Resends.SendableIff | subsys/greybus/greybus-core.c:755-802 | the history of a live operation can go on if and only if it is not pending, has no response, and the worker is not completing it |
| Resends.EntryKeepsIdsIff | subsys/greybus/greybus-core.c:766-772 | entering a send keeps the ids of all pending requests if and only if the operation is not pending |
| Resends.SendIsSafeIff | subsys/greybus/greybus-core.c:755-802 | for an operation sent with any history, and any steps of all threads until the answer to that send is attached: ownership stays exact if and only if, when it was sent, it had no response and none was being attached; otherwise that response leaks |
| ResendRuns.SecondAnswerLeaksFirst | subsys/greybus/greybus-core.c:345-376 | a run from the initial state in which a request sent again after its answer leaks its first response |
| ResendRuns.EarlySendLeaksFirst | subsys/greybus/greybus-core.c:356-365 | a run in which a request sent again while its first response is being attached leaks it |
| ResendRuns.SecondEntryLosesResponse | subsys/greybus/greybus-core.c:766-772 | a run in which entering a send of a pending request makes the worker drop its response |
| Unregistration.FlushEmptiesIff | subsys/greybus/greybus-core.c:516-524 | unregistering leaves tx_fifo empty in every interleaving if and only if no call that has passed the exit test can still send when the flush begins |
| Unregistration.LateSendStaysPending | subsys/greybus/greybus-core.c:516-524 | a run from the initial state that leaves a request in tx_fifo of an unregistered driver without a worker |
| EngineGuarantees.FailedSendRestores | subsys/greybus/greybus-core.c:773-801 | a failed send restores tx_fifo, the counter and every other operation |
| EngineGuarantees.LegalLifeCounts | subsys/greybus/greybus-core.c:345-376 | in a legal history queuings balance departures, and claims balance callbacks and endings without one |
| EngineGuarantees.CallbackFollowsClaim | subsys/greybus/greybus-core.c:356-369 | a callback, or an ending without one, directly follows the claim that caused it, which directly follows the queuing, with the response of the same id or with none on timeout; it is a callback if and only if the queuing asked for one |
| EngineGuarantees.RequestsLiveLegally | subsys/greybus/greybus-core.c:755-802 | over every run a request leaves tx_fifo as often as it was queued unless pending now, is completed once each time the worker takes it unless it is completing it now, by a callback if and only if that send asked for one, and is never called back after a flush or a failed send |
| EngineDelivery.TokensMatchQueue | subsys/greybus/greybus-core.c:387-399 | semaphore plus held token equal queue plus exit token; a dequeue finds an entry; entries are taken in order of arrival |
| EngineDelivery.BreaksOnlyWhenDrained | subsys/greybus/greybus-core.c:393-395 | the worker ends only for the exit token, with the queue empty, every message taken and nothing in hand |
| EngineDelivery.PendingIdsAreUnique | subsys/greybus/greybus-core.c:774-783 | two pending requests share an id exactly when their allocations are a multiple of 65535 apart, so not while fewer were issued since the oldest pending one |
| EngineDelivery.ScansAreSound | subsys/greybus/greybus-core.c:351-357 | along every run, no request before the matching walk's cursor has the response's id |
| EngineDelivery.WalksGoOn | subsys/greybus/greybus-core.c:351-357 | along every run, the requests pending when a walk begins stay live, in place and with their ids while it goes on |
| EngineDelivery.DropsOnlyUnmatched | subsys/greybus/greybus-core.c:351-375 | a response is dropped only if no request that was pending when its walk began has its id, whatever other threads did meanwhile, and dropping it changes nothing |
| EngineDelivery.TimeoutsNeverFire | subsys/greybus/greybus-core.c:686-701 | with the guard as written no run queues the timed-out operation or completes a request by timeout |
| Ownership.UnrefKeepsBalance | subsys/greybus/greybus-core.c:934-958 | dropping one reference keeps all counters exact through the cascade over response links, and frees exactly on the last owner |
| Ownership.AttachBalancedIffFirst | subsys/greybus/greybus-core.c:364-365 | attaching a response keeps all counters exact if and only if it is the first |
| RequestIds.CounterClosedForm | subsys/greybus/greybus-core.c:775-778 | the 32-bit counter after k allocations, with one extra draw for every 0 skipped |
| RequestIds.IdsCycleThroughNonzero | subsys/greybus/greybus-core.c:775-778 | the k-th id is 1 + (k mod 65535), never 0, however often the counter has wrapped |
| RequestIds.SameIdIff | subsys/greybus/greybus-core.c:775-778 | two allocations share an id exactly when they are a multiple of 65535 apart |
| CallEffects.DropFreesLast | subsys/greybus/greybus-core.c:934-958 | in every state with the invariant a dropped reference frees the operation if and only if it had no other owner |
| CallEffects.WatchdogMeans | subsys/greybus/greybus-core.c:686-701 | the handler changes the queue exactly where its comment wants it unchanged, and never does what the comment wants |
| CportDriver.Cport.constructor | subsys/greybus/greybus-core.c:1075-1087 | a fresh cport satisfies the invariant |
| CportDriver.Cport.OperationCreate | subsys/greybus/greybus-core.c:982-1010 | the id of a new operation was not live, nothing else is created, its creator is its only owner, and the invariant is kept |
| CportDriver.Cport.OperationRef | subsys/greybus/greybus-core.c:927-932 | one more owner, with the invariant kept |
| CportDriver.Cport.Unref | subsys/greybus/greybus-core.c:934-958 | the recursive release in place computes Ownership.Unref |
| CportDriver.Cport.OperationDestroy | subsys/greybus/greybus-core.c:921-925 | the operation is freed if and only if nothing else owns it, with the invariant kept |
| CportDriver.Cport.AllocateId | subsys/greybus/greybus-core.c:774-780 | the drawn id, the counter and the rewritten header |
| CportDriver.Cport.SendLocked | subsys/greybus/greybus-core.c:773-799 | for any caller inside a send: a sent request is last in tx_fifo, which owns it too, with the next nonzero id and exactly the callback that was asked for, which its history records; a failed send restores lists, counters and all other operations; everything but the request's own history stays in order, and that too if it may be sent |
| CportDriver.Cport.OperationSendRequest | subsys/greybus/greybus-core.c:755-802 | the whole send, refused when the worker is to exit: the request is queued exactly if it succeeds and wants a response, then with the callback that was asked for, its id is 0 exactly if it wants none, everything but its own history stays in order, and that too if it may be sent |
| CportDriver.Cport.RxQueue | subsys/greybus/greybus-core.c:499-513 | a received message becomes a new operation, with the id and the type of its header, that the queue alone owns, behind the earlier entries, with one more token and the invariant kept |
| CportDriver.Cport.OperationTimeout | subsys/greybus/greybus-core.c:686-701 | as written, the handler changes something if and only if the timed-out operation is queued already, and differs from what its comment wants in every state |
| CportDriver.Cport.NextEntry | subsys/greybus/greybus-core.c:387-399 | with a token the worker takes the oldest entry, and ends if there is none, which only happens when it is to exit; this is an undisturbed run of the state machine |
| CportDriver.Cport.MatchResponse | subsys/greybus/greybus-core.c:345-365 | the loop takes the first pending request with the response's id and attaches the response, or finds that there is none and changes nothing; both are undisturbed runs and keep the invariant |
| CportDriver.Cport.CompleteRequest | subsys/greybus/greybus-core.c:367-371 | the completion is logged once, as a callback if there is one, and sees this response; the request is freed if and only if nobody else owns it, the response stays live, and the invariant is kept |
| CportDriver.Cport.FinishMessage | subsys/greybus/greybus-core.c:414-414 | the handled message is freed if and only if nothing else owns it, such as the request that it answers |
| CportDriver.Cport.ProcessResponse | subsys/greybus/greybus-core.c:345-376 | matching and completion in place are an undisturbed run of the state machine; nothing is served, and the receive queue stays |
| CportDriver.Cport.ServeRequest | subsys/greybus/greybus-core.c:247-273 | a request in hand: a ping is answered at once, any other by what the driver's sorted table has for its type, found exactly if there is one; what goes out is the script of that handler, every message answers the request; it is logged as served once, and no operation or list is touched |
| CportDriver.Cport.HandleMessage | subsys/greybus/greybus-core.c:409-414 | a message of response type is matched and sends nothing, any other is served once and leaves tx_fifo alone; either is an undisturbed run |
| CportDriver.Cport.CleanTimedOut | subsys/greybus/greybus-core.c:322-343 | exactly the requests that have timed out leave tx_fifo, in one walk; each loses one reference, is freed on its last, and its history gets a timeout and a completion, a callback if and only if there is one; everything else stays |
| CportDriver.Cport.WorkerTurn | subsys/greybus/greybus-core.c:386-415 | one turn of the loop in place: the oldest entry is taken, a message is served if and only if its type is a request type, and the worker ends if and only if the queue is empty; this is a run of the state machine |
| CportDriver.Cport.FlushTxFifo | subsys/greybus/greybus-core.c:516-524 | every pending request leaves tx_fifo once, its history ends in a flush, no other history changes, the invariant is kept |
| QuietRuns.WorkerRunsAreRuns | subsys/greybus/greybus-core.c:386-415 | what the worker reaches undisturbed is reached by a run of the state machine |
| QuietRuns.MatchRuns | subsys/greybus/greybus-core.c:351-365 | the undisturbed loop of MatchResponse is a run of single steps that ends in the attached response |
| QuietRuns.MissRuns | subsys/greybus/greybus-core.c:351-375 | and one that ends with the response dropped |
| QuietRuns.FlushMeans | subsys/greybus/greybus-core.c:516-524 | the undisturbed flush ends with tx_fifo empty, one flush in each pending history and none in others, and the invariant kept |
| TimeoutSweep.SweepGoesOn | subsys/greybus/greybus-core.c:327-340 | every turn of the sweep extends a run of the worker and takes the request at the cursor if and only if it has timed out; the prefetched node is the next one |
| TimeoutSweep.KeptMember | subsys/greybus/greybus-core.c:327-340 | what the sweep leaves are exactly the pending requests that have not timed out |
| Dispatch.FindOperationHandler | subsys/greybus/greybus-core.c:216-245 | the binary search finds a handler of the type if and only if the sorted table has one, for every table size and for a driver without handlers |
| Dispatch.Dispatched | subsys/greybus/greybus-core.c:621-624 | after sorting, the handler found is one of the driver's own table, found whenever linear search finds one, and the same one if types are distinct |
| Responses.Responder.AllocResponse | subsys/greybus/greybus-core.c:897-919 | the response buffer: truncated size, the request's id, its type with the highest bit set |
| Responses.Responder.SendOomResponse | subsys/greybus/greybus-core.c:827-847 | the static out-of-memory header with the request's id, its type with the highest bit set and result 3, unless the worker is to exit |
| Responses.Responder.SendResponse | subsys/greybus/greybus-core.c:849-895 | in place, the answer of one call under every outcome of allocation and transport; success exactly when one message reaches the wire, which answers the request and has the result given, or out of memory |
| Responses.Responder.ProcessRequest | subsys/greybus/greybus-core.c:247-273 | ping, missing handler, and a handler that does anything to its operation; every message answers the request |
| Responses.ResponsesAreShaped | subsys/greybus/greybus-core.c:849-895 | every message on the wire carries the request's id and its type with the highest bit set; only out-of-memory responses precede another; never more messages than calls |
| Responses.AtMostOneIffAskedOnce | subsys/greybus/greybus-core.c:864-892 | at most one response under every outcome if and only if at most one is asked for |
| Responses.HandledOnce | subsys/greybus/greybus-core.c:247-273 | for a handler that does not respond itself: exactly which single response, or none, reaches the wire, with size, id, type and result, and none for id 0 |
| Responses.AnswersAreTakenForResponses | subsys/greybus/greybus-core.c:409-413 | whatever arrives and whatever fails, a receiver takes every message that goes out for a response, to the type and id of the request |
| Responses.UnhandledOnce | subsys/greybus/greybus-core.c:252-262 | a ping succeeds and an unknown type is invalid: exactly which single response, or none, goes out under every outcome |
| Responses.SizeIsExactIffItFits | subsys/greybus/greybus-core.c:915-915 | the size field is 8 plus the payload exactly up to 65527 bytes |
| Tape.RxHandler | subsys/greybus/greybus-core.c:451-492 | what is recorded: header and data of exactly the messages that pass the tests of the source |
| Tape.AcceptedMember | subsys/greybus/greybus-core.c:451-482 | the messages recorded and dispatched are those with a cport that exists, a driver with handlers, and a header that declares between 8 bytes and their length |
| Tape.ReadRecord | subsys/greybus/greybus-core.c:1190-1207 | one record read through a tape that returns short counts only at its end |
| Tape.Replay | subsys/greybus/greybus-core.c:1164-1217 | the replay loop delivers what the tape's bytes mean, returns 0 at a clean end, and overflows its buffer exactly where they say so |
| Tape.OverflowsIff | subsys/greybus/greybus-core.c:1200-1207 | a replay overflows if and only if it stops at a header that declares, and a tape that still has, more than 2048 bytes |
| Tape.PlaybackIsPrefix | subsys/greybus/greybus-core.c:1189-1210 | whatever a tape holds, the records delivered, recorded again, are its first bytes; what is left is no record that fits the buffer, and nothing if and only if the replay returns 0 |
| Tape.RecordAndReplay | subsys/greybus/greybus-core.c:484-492 | a recorded session replays as exactly the accepted messages, in order, without an overflow, and returns 0 |
| Tape.CutTapePlaysPrefix | subsys/greybus/greybus-core.c:1189-1210 | a tape cut anywhere plays exactly its whole records, and returns 0 if and only if it was cut between two |
| Wire.HeaderRoundTrip | include/greybus/greybus.h:161-167 | the operation header survives the wire up to the 16 bits of its fields |
| Wire.HeaderLiteral | include/greybus/greybus.h:161-167 | the eight bytes of one header |
| TcpFraming.SendMessage | subsys/greybus/platform/transport-tcpip.c:561-588 | all bytes of a message go out in order, however the socket splits them |
| TcpFraming.XportSend | subsys/greybus/platform/transport-tcpip.c:608-638 | only a message whose header states its length is sent |
| TcpFraming.Fill | subsys/greybus/platform/transport-tcpip.c:504-518 | a receive loop takes exactly the bytes it wants or reports the end |
| TcpFraming.GetMessage | subsys/greybus/platform/transport-tcpip.c:481-559 | one message, the end or an error, depending on the stream alone and on no split |
| TcpFraming.Serve | subsys/greybus/platform/transport-tcpip.c:344-378 | the messages of a connection are those that its bytes mean, up to the first that the handler refuses |
| TcpFraming.Exchange | subsys/greybus/platform/transport-tcpip.c:481-588 | the round trip: every list of messages sent is received unchanged, with nothing left over, for every split on both sides; it succeeds on a reliable connection |
| TcpFraming.ParseInvertsConcat | subsys/greybus/platform/transport-tcpip.c:481-588 | parsing undoes concatenation |
| TcpFraming.CutStreamYieldsPrefix | subsys/greybus/platform/transport-tcpip.c:507-511 | a stream cut anywhere yields its whole messages and then the end of the connection |
| Wire.WholeIsMaximal | subsys/greybus/platform/transport-tcpip.c:507-511 | the number of whole messages, frames or records in a cut stream is the largest whose bytes fit |
| TcpFraming.DeliveredIsPrefix | subsys/greybus/platform/transport-tcpip.c:520-531 | from any peer, only well-formed messages are delivered, they are the first bytes of the stream, and none comes behind one that was refused |
| TcpFraming.EndingMeans | subsys/greybus/platform/transport-tcpip.c:520-531 | from any peer, a connection is rejected only at a header that declares less than 8 or more than 2048 bytes, and otherwise ends only without another whole message |
| MuxFraming.ReadData | subsys/greybus/platform/transport-tcpip-multiplex.c:66-84 | exactly the wanted bytes, or 0 when the peer closed first |
| MuxFraming.WriteData | subsys/greybus/platform/transport-tcpip-multiplex.c:88-101 | all bytes in order, however the socket splits them |
| MuxFraming.TransSend | subsys/greybus/platform/transport-tcpip-multiplex.c:207-236 | cport, then message, only if the header states its length |
| MuxFraming.MessageReceive | subsys/greybus/platform/transport-tcpip-multiplex.c:132-171 | one frame, the end of the connection or an overflow, depending on the stream alone; without memory the header is consumed |
| MuxFraming.Serve | subsys/greybus/platform/transport-tcpip-multiplex.c:382-421 | the frames of a connection are those that its bytes mean, until it is closed or a header overflows its buffer |
| MuxFraming.OverflowsIff | subsys/greybus/platform/transport-tcpip-multiplex.c:103-171 | a stream overflows the receiver if and only if, behind whole frames, it completes a header that declares less than its own size |
| MuxFraming.DeliveredIsPrefix | subsys/greybus/platform/transport-tcpip-multiplex.c:132-171 | from any peer, the frames delivered, sent again, are the first bytes of the stream, and what is left is no whole frame |
| MuxFraming.Exchange | subsys/greybus/platform/transport-tcpip-multiplex.c:207-233 | the round trip of cport and message pairs for every split on both sides |
| MuxFraming.CutStreamYieldsPrefix | subsys/greybus/platform/transport-tcpip-multiplex.c:132-171 | a stream cut anywhere yields exactly its whole frames |
| Descriptors.TilesOfConcat | subsys/greybus/greybus-manifest.c:470-483 | the decomposition of bytes into descriptors is unique |
| Descriptors.TiledIffTilesCover | subsys/greybus/greybus-manifest.c:470-483 | bytes are descriptors end to end if and only if taking descriptors off the front consumes them |
| Descriptors.RemovalUndoesAppend | subsys/greybus/greybus-manifest.c:307-320 | removing a manifest's ids after appending all or the first of its cports restores the list if and only if no id was in it |
| ManifestParser.Greybus.FreeCport | subsys/greybus/greybus-manifest.c:121-131 | every entry of the id leaves the list and frees its node, the others stay in order |
| ManifestParser.Greybus.IdentifyDescriptor | subsys/greybus/greybus-manifest.c:269-356 | in a buffer of any length, consumes exactly a whole valid descriptor, with its effect on the cport list and the maxima; otherwise list and memory stay; and whether it reads past the buffer |
| ManifestParser.Greybus.ManifestParse | subsys/greybus/greybus-manifest.c:441-486 | in a buffer of any length, accepts exactly the manifests whose cports fit in memory, appends exactly their cports in order, keeps those before a bad descriptor on failure, with the maxima raised by at most one id more; releasing removes by id; no list node is lost; and when it reads past the buffer |
| ManifestPasses.PassIs | subsys/greybus/greybus-manifest.c:470-483 | a pass goes through the descriptors with memory for their cports and halts at the rest |
| ManifestPasses.PassMeans | subsys/greybus/greybus-manifest.c:470-483 | what one pass over the descriptors accepts and lists, and both bounds of what it raises, also when it fails |
| ManifestPasses.ReadsBeyondIff | subsys/greybus/greybus-manifest.c:280-340 | which bytes make a pass read past its buffer |
| ManifestPasses.TiledStaysInside | subsys/greybus/greybus-manifest.c:280-340 | descriptors end to end never do, in a buffer of exactly their size |
| ManifestPasses.AcceptedHeaderReadsBeyond | subsys/greybus/greybus-manifest.c:441-486 | an eight-byte manifest whose header is accepted and that does |
| ManifestParser.Greybus.RenumberAt | subsys/greybus/greybus-manifest.c:376-424 | the bytes rewritten for each descriptor type and the patch maxima |
| ManifestParser.Greybus.IdentifyPatchDescriptor | subsys/greybus/greybus-manifest.c:358-439 | renumbers a valid descriptor where it lies and says whether to keep it; what it does to bytes that are none; whether it touches bytes past the buffer |
| ManifestParser.Greybus.ManifestPatch | subsys/greybus/greybus-manifest.c:513-572 | for any fragment: whether it gets to its end, and then the combined blob, the fragment renumbered in place and the new maxima, as the descriptors found define them; a rejected header changes nothing |
| ManifestPatching.RaiseAllIsLeast | subsys/greybus/greybus-manifest.c:294-331 | the maxima after a parse are the least upper bounds of the old ones and the ids present |
| ManifestPatching.RenumberedIsDescriptor | subsys/greybus/greybus-manifest.c:376-411 | renumbering keeps a descriptor valid |
| ManifestPatching.PatchedIsManifest | subsys/greybus/greybus-manifest.c:513-572 | the patched blob is a manifest again, states its own length, and consists of the base's descriptors followed by the kept renumbered ones; no cports are added |
| ManifestPatching.LookupRenumbered | subsys/greybus/greybus-manifest.c:379-410 | ids and references of a fragment move together, also across an 8-bit wrap |
| ManifestPatching.CombinedLookup | subsys/greybus/greybus-manifest.c:543-567 | what every string id of the fragment means after a patch, without any assumption |
| ManifestPatching.ReferencesPreserved | subsys/greybus/greybus-manifest.c:379-410 | without wrap every base id and every device and property reference names the same bytes as before, with the one exception of reference 0 |
| ManifestPatching.ReferenceKeptIff | subsys/greybus/greybus-manifest.c:379-410 | a fragment's string id means the same after the patch if and only if the base has nothing or the same under the shifted id |
| ManifestPatching.WrapLosesReference | subsys/greybus/greybus-manifest.c:379-410 | a base, with the maxima of its own parse, and a fragment for which a reference names another string |
| ManifestPatching.AdditionsAreDistinct | subsys/greybus/greybus-manifest.c:379-411 | added ids of one kind are distinct |
| ManifestPatching.GrownBounds | subsys/greybus/greybus-manifest.c:568-570 | the grown maxima bound all ids of the combined manifest |
| ManifestPatching.PatchesKeepIdsDistinct | subsys/greybus/greybus-manifest.c:544-570 | over any sequence of patches ids stay distinct per kind and the maxima stay upper bounds |
| ManifestGuarantees.ParseThenRelease | subsys/greybus/greybus-manifest.c:574-577 | release restores the cport list, and with it the memory, after a complete or a failed parse if and only if no id was in it before |
| ManifestGuarantees.ReleasePatched | subsys/greybus/greybus-manifest.c:574-577 | releasing the patched blob removes what the parse of the base added |
| ManifestGuarantees.PatchThenParse | subsys/greybus/greybus-manifest.c:503-572 | patching in place with any fragment and then parsing the very buffer that comes out: accepted, nothing read past it, the base's cports listed, and the maxima bound all ids; exactly when the patcher gets to its end |
| ManifestGuarantees.PatchedAnything | subsys/greybus/greybus-manifest.c:543-567 | whatever the fragment's bytes are, the patched blob is a manifest: the base's descriptors and the renumbered valid ones that were found |
| ManifestGuarantees.PatchedBounds | subsys/greybus/greybus-manifest.c:544-570 | the maxima after a patch bound all ids of the combined manifest, whatever the fragment's bytes are |
| ManifestPasses.TiledIsFound | subsys/greybus/greybus-manifest.c:545-567 | in a fragment of descriptors end to end exactly those are found and renumbered |
| ManifestGuarantees.BlobReferencesPreserved | subsys/greybus/greybus-manifest.c:543-567 | references between the blobs: what the parser finds in the combined blob names the same strings |
| ManifestGuarantees.IdsStayDistinct | subsys/greybus/greybus-manifest.c:543-570 | from the parse of a base on, patches keep ids distinct |
| ManifestPasses.JunkIsSkipped | subsys/greybus/greybus-manifest.c:545-553 | where no descriptor starts the patcher looks again 22 bytes further on |
| DeclaredManifests.LiteralBytes | subsys/greybus/greybus-manifest.h:178-182 | the bytes of a cport, a string and a property |
| DeclaredManifests.EncodedIsDescriptor | subsys/greybus/greybus-manifest.c:287-345 | the encoding of every declaration is a descriptor, and cut shorter, with its size field corrected, it is none: the sizes that the parser expects are those of the layout |
| DeclaredManifests.CportDecodes | subsys/greybus/greybus-manifest.c:307-318 | decoding an encoded cport gives its id, bundle and protocol back |
| DeclaredManifests.FieldsDecode | subsys/greybus/greybus-manifest.c:287-331 | ids, texts and string references are read where the layout puts them |
| DeclaredManifests.BytesAreManifest | subsys/greybus/greybus-manifest.c:441-486 | the bytes of declarations are a manifest if and only if there is one and the version is 0, and they come apart into the same descriptors |
| DeclaredManifests.DeclaredMembers | subsys/greybus/greybus-manifest.c:665-677 | the cports that are counted for a bundle are those declared for it, in order |
| DeclaredManifests.ParseDeclared | subsys/greybus/greybus-manifest.c:503-506 | parsing in place the bytes of any declarations: accepted exactly if there is one, the version is 0 and the list nodes suffice; then exactly the declared cports are listed, for each bundle its own, the maxima are raised to the declared ids, and nothing is read past the buffer |
| DeclaredManifests.RenumberMoves | subsys/greybus/greybus-manifest.c:376-411 | renumbering the bytes of a declaration is moving its ids and references in 8 bits |
| DeclaredManifests.KeptKinds | subsys/greybus/greybus-manifest.c:384-397 | interfaces, bundles and cports of a fragment are skipped, everything else is kept |
| DeclaredManifests.EncodedLookup | subsys/greybus/greybus-manifest.c:379-410 | a string id means the text of the first string declared under it |
| DeclaredManifests.PatchedDeclarations | subsys/greybus/greybus-manifest.c:543-567 | the patched blob is the manifest of the base's declarations and the fragment's, moved |
| DeclaredManifests.DeclaredGrowth | subsys/greybus/greybus-manifest.c:568-570 | each maximum grows by exactly the largest id that was added |
| DeclaredManifests.PatchDeclared | subsys/greybus/greybus-manifest.c:513-572 | patching and parsing in place: if the size field can count it, the buffer holds exactly the bytes of both manifests' declarations, the fragment's moved, and the base's cports are listed |
| BundleSlots.NumCports | subsys/greybus/greybus-manifest.c:665-677 | the number of the bundle's cports |
| BundleSlots.StartCport | subsys/greybus/greybus-manifest.c:679-691 | the smallest id, or UINT_MAX for a bundle without cports |
| BundleSlots.SlotsFitIffConsecutive | subsys/greybus/greybus-core.c:604-606 | distinct ids all have a slot in the allocated array if and only if they are consecutive |
| BundleSlots.SlotsAreABijection | subsys/greybus/greybus-core.c:604-606 | distinct consecutive ids map one to one onto the slots |
| BundleSlots.SlotOf | subsys/greybus/i2c.c:83-83 | a cport's slot is its rank among the bundle's cports |
| HidPool.StepKeepsInv | subsys/greybus/hid.c:423-504 | every interrupt and every thread instruction keeps the pool's invariant |
| HidPool.RunsAreSafe | subsys/greybus/hid.c:423-504 | so does every interleaving |
| HidPool.PoolIsConserved | subsys/greybus/hid.c:423-504 | each of the five nodes is in exactly one place, sent reports are a prefix of accepted ones, and every queued report has a token |
| HidPool.InterruptKeepsOrder | subsys/greybus/hid.c:444-446 | an accepted report is queued behind the earlier ones and overwrites none |
| HidPool.AcceptsAgainIffNotDoomed | subsys/greybus/hid.c:496-500 | the pool can accept another report if and only if it is not doomed |
| HidPool.DoomedForever | subsys/greybus/hid.c:432-438 | once doomed, no report is ever accepted again |
| HidPool.ReportBeforeClearingDooms | subsys/greybus/hid.c:497-499 | a report between re-arming and clearing the request dooms the pool |
| HidPool.ReportsBeforeTestingDoom | subsys/greybus/hid.c:493-498 | so do two reports between giving back a node and testing the request |
| HidPool.FreedAllButReceiving | subsys/greybus/hid.c:624-636 | releasing the pool frees every node but the one in receiving |
| HidProgress.ThreadDrains | subsys/greybus/hid.c:474-504 | unless it is stopped, the thread sends every accepted report once interrupts leave it alone for a number of instructions that its semaphore bounds |
| HidProgress.StoppingEnds | subsys/greybus/hid.c:624-630 | from every state in which the pool may be stopped, the thread ends within nine instructions of its own |
| HidProgress.StoppedPoolIsFreed | subsys/greybus/hid.c:624-636 | so the join returns, the release is allowed, and every node but the one in receiving is freed |
| HidDriver.HidInfo.AllocOp | subsys/greybus/hid.c:536-567 | all nodes or none: a failed allocation gives back what was taken |
| HidDriver.HidInfo.FreeOp | subsys/greybus/hid.c:514-524 | both objects of every queued node are given back |
| HidDriver.HidInfo.Start | subsys/greybus/hid.c:580-680 | initialization establishes the invariant |
| HidDriver.HidInfo.EventCallback | subsys/greybus/hid.c:423-462 | the interrupt in place, with its three results: an accepted report goes behind the queue, a refused one changes no queue, and the invariant is kept |
| HidDriver.HidInfo.ReportProc | subsys/greybus/hid.c:474-504 | one turn of the report thread without an interrupt is a run of the state machine: it sends the oldest report, restores a receiver that was asked for if and only if a node can be had, and keeps the invariant |
| HidDriver.HidInfo.StopThread | subsys/greybus/hid.c:626-628 | the stop in place keeps the invariant, leaves a token, and makes the thread end |
| HidDriver.HidInfo.ReceiverDeinit | subsys/greybus/hid.c:624-636 | the whole deinitialization of an idle pool: the thread ends in its next turn without sending, the queues are empty, and the memory of all nodes but the one in receiving is given back |
| HidDriver.HidInfo.Deinit | subsys/greybus/hid.c:632-635 | the release in place and how much memory it gives back |
| Transfers.SlicesTile | subsys/greybus/i2c.c:136-143 | consecutive slices are disjoint and cover their range exactly |
| Transfers.I2cReadSize | subsys/greybus/i2c.c:104-112 | the 32-bit sum of the read sizes never wraps |
| Transfers.I2cFill | subsys/greybus/i2c.c:124-144 | one message for each descriptor, laid out without a gap, unless addresses differ |
| Transfers.I2cTransfer | subsys/greybus/i2c.c:73-157 | every refusal in its order, and otherwise messages laid out over a response of exactly the read size |
| Transfers.I2cSlicesTile | subsys/greybus/i2c.c:136-143 | read slices tile the response payload, write slices the declared bytes behind the descriptors |
| Transfers.I2cWritesFitIff | subsys/greybus/i2c.c:136-143 | the write slices lie inside the request if and only if the declared writes do |
| TransferRequests.I2cDecodes | subsys/greybus/i2c-gb.h:74-83 | reading back the request for any operations gives their addresses, flags and lengths |
| TransferRequests.I2cTransferOf | subsys/greybus/i2c.c:73-157 | the request for any operations reaches the driver with exactly those directions and lengths, reads one after the other into a response of their sum, writes with exactly the bytes sent for them, unless memory fails or addresses differ |
| Transfers.SpiCheck | subsys/greybus/spi.c:314-337 | the first pass accepts exactly descriptors without empty reads, with one word size and without chip-select changes, and adds their reads in 32 bits |
| Transfers.SpiFill | subsys/greybus/spi.c:372-408 | the second pass: both halves of the descriptor array laid out without a gap, or where it stops |
| Transfers.SpiTransferOf | subsys/greybus/spi.c:269-428 | every refusal in its order, and otherwise the buffers that reach the driver, for any length of request, or that the first pass reads beyond it |
| Transfers.ReadsBeyondIff | subsys/greybus/spi.c:310-337 | when the first pass reads descriptors beyond a short request |
| Transfers.NullSetUsedIff | subsys/greybus/spi.c:364-408 | the null receive set is used if and only if the wrapped sum is 0 and the second pass reaches a read |
| Transfers.NullSetUsedIffWrapsToZero | subsys/greybus/spi.c:364-408 | for accepted descriptors of known direction, if and only if the sum is a positive multiple of 2^32 |
| Transfers.WrappedSumUsesNullSet | subsys/greybus/spi.c:314-321 | two reads whose lengths add up to 2^32 use it |
| Transfers.SpiSlicesTile | subsys/greybus/spi.c:376-402 | read slices tile the read bytes, write slices the declared bytes behind the descriptors |
| Transfers.ReadsFitIff | subsys/greybus/spi.c:347-402 | the read slices lie inside the allocated response if and only if the sum is below 2^32 |
| Transfers.WrappedReadsLeaveResponse | subsys/greybus/spi.c:347-402 | two accepted reads of 2^32 + 1 bytes get a response of one byte and slices beyond it |
| Transfers.SpiWritesFitIff | subsys/greybus/spi.c:376-402 | the write slices lie inside the request if and only if the declared writes do |
| TransferRequests.SpiDecodes | subsys/greybus/spi-gb.h:107-134 | reading back the request for any operations gives their lengths, settings and directions |
| TransferRequests.SpiTransferOfOps | subsys/greybus/spi.c:269-428 | the request for any operations: which are refused, and otherwise exactly those directions and lengths reach the driver, writes with exactly the bytes sent for them, unless memory fails or the sum of the reads wraps to 0 |

## Left out

- `gb_operation_send_request_nowait`: no backend of the repository sends asynchronously, and a failing asynchronous send keeps its extra reference.
- CportDriver.Cport.OperationSendRequest: asks for a handle, no other send of the operation under way, and an operation that is not pending; a pending one would be linked into tx_fifo twice, and what the list is then is not modelled (`Resends.EntryKeepsIdsIff` says what happens before).
- Unregistration.FlushEmptiesIff: the source's flush removes nodes without `irq_lock` (line 521), so a send could corrupt the list while it does; here each removal is one step.
- CportDriver.Cport.MatchResponse: as the other worker methods, one pass without interference; interleavings are those of the state machine.
- WorkerProgress.WorkerDrains: as Completion.AnsweredIsCompleted and WorkerProgress.UnregisteringEnds, says what the worker reaches when the other threads leave it alone, not that the scheduler does.
- CportDriver.Cport.ServeRequest: a handler is any series of allocations and responses; what else it does, and whether it returns, is not modelled.
- HidProgress.StoppingEnds: setting thread_stop and posting the semaphore are one step; a thread that sees the flag in between ends earlier.
- Real time: whether an operation has timed out is an arbitrary answer; the watchdog functions are stubs, so no liveness of timeouts is claimed.
- The transport's send inside the locked region of a request is one step with the region; interrupts that the transport lets in are not modelled.
- Two cports interleave only through the request counter; `greybus_rx_handler` may deliver to a cport at any time, also while its driver is being unregistered, which covers more than the code's own test of the driver.
- Counters and handles are unbounded: overflow of `ref_count`, of `size_t` maxima and of an `int` read count above 2^31 is not modelled.
- Fast handlers, loopback statistics, timestamps, logging, UniPro zero copy and thread naming.
- What the source does after it has read or written past a buffer (parser, tape replay, multiplexed receiver, SPI descriptors).
- Polling, listening, TLS, service discovery and the list of connections.
- ManifestParser.Greybus.ManifestPatch: what the source does once its cursor has passed the end of the fragment or the combined size has passed 65535 is not modelled, nor is a failing reallocation; the blob's own header is taken to be right.
- ManifestParser.Greybus.ManifestParse: a release with a size below the manifest header, for which the source's size wraps; no manifest that was parsed has one.
- Device link fields other than string ids are not renumbered by the source, and nothing is claimed about them.
- Descriptor kinds are compared by number; class, protocol and device fields carry no meaning here.
- HidPool.AcceptsAgainIffNotDoomed: says that a continuation exists, not that the scheduler takes it.
- Transfers.SpiFill: the `count` fields of the buffer sets are not modelled; they do not cover mixed lists in the source.
- Transfers.I2cTransfer: the call into the bus driver and its result code.
- `uart.c` (same pool shape, but its re-arming may find no buffer), `audio.c` (configuration disabled), `transport-uart.c` (drops bytes on overflow) and the single-branch handlers of the other protocols.

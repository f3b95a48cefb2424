# razor RPC: verified model of the client stream, failover and wire framing

The repository is an asynchronous RPC framework. A client connection is one sender and one receiver
that share atomics, an in-flight table and a registration channel. Above it sit connection pools, a
failover pool that routes and retries over a versioned list of pools, and an API layer whose calls
follow redirects. Below it is a little-endian wire format with reused buffers.

The project models these parts and proves what they promise, over every run of the state machines
and every input of the codecs.

| file | content |
|---|---|
| `errors.dfy`, `arith.dfy` | `Option`, `Result`, the internal error kinds and their order; uniqueness of quotient and remainder |
| `task_table.dfy` | the in-flight table as a value: channel, current second, delay batches; refinement of a plain map |
| `task_timer.dfy` | `ClientTaskTimer` as a class with its loops, proved against the table |
| `stream_protocol.dfy` | sender and receiver as interleaved atomic steps, and the invariant of every run |
| `stream_theorems.dfy` | close safety, exactly-once resolution, graceful close, timeouts, in-flight bound |
| `stream_laws.dfy` | what the log, the flags and the counters say about the steps taken; progress |
| `wire.dfy` | little-endian fields and the growable buffer |
| `request_framing.dfy` | request printer and server-side parser |
| `error_codec.dfy` | reserved error names and the built-in error codecs |
| `response_framing.dfy` | response printer and client-side parser, frame synchronisation |
| `result_fidelity.dfy` | from a method's return value to the caller's result, through the wire |
| `cluster.dfy` | cluster snapshots: selection, lookup by address, redirects, address updates |
| `rotation.dfy` | arithmetic of un-reduced indices: retries and round robin |
| `failover_runs.dfy` | any interleaving of sends, retries, refusals, redirects, next-node calls and updates; stamps, identities, addresses |
| `failover_theorems.dfy` | where next nodes, leaders, retries and first selections go, over those runs |
| `api_call.dfy` | the task objects, the retry wrapper and the `call` loop |
| `conn_pool.dfy` | pool workers: monitor handover, spawns, failures and exits |

Findings about the code that the theorems make precise:

- An encode failure (`stream/src/client/stream.rs:293-296`) leaves its task unresolved and the
  pending counter raised, so the receiver never exits afterwards (`EncodeFailureIsForever`); exit is
  possible exactly when no such failure happened (`ExitPossibleIff`, `ExitPossibleAfter`).
- The `has_err` exit (`stream/src/client/stream.rs:511-514`) can abandon a reader that has taken a
  task. That is the only way to lose a task at exit (`ExactlyOnceIff`), and it does happen
  (`AbortedReadWitness`).
- A negative numeric action or an action name of 2^31 bytes or more does not survive the header
  (`RequestRoundTripIff`).
- The text of an error is appended after whatever the encoder already wrote. For every response, found
  task or not, the reader stands at the next frame exactly when errors come with nothing written, lengths
  are true and fit, and what has to be dropped fits an i32 and can be allocated (`FramingIff`). A message
  with a blob over `i32::MAX` breaks this: the reader resumes inside the frame (`OversizedBlob`).
- Skipping the response of an unknown task keeps the packet boundary exactly when the body fits in an
  i32 and its buffer can be allocated (`UnknownSyncIff`); beyond 32 bits the reader resumes inside the
  body (`SilentDesync`).
- A header read that the close notice cancels keeps the boundary for all responses exactly when it has
  taken no byte (`CancelSafeIff`); after one to three bytes the next read always fails (`CutHeader`).
- The module documentation lists the response header as `seq` before `msg_len`
  (`stream/src/proto.rs:38-45`), the packed struct has `msg_len` first (`stream/src/proto.rs:245-260`).
  The model follows the struct.
- The resubmission to the next node does not compare configuration versions. It returns to the pool that
  refused exactly when that pool is the first healthy position after the reported index in the
  configuration used (`NextNodeReturnsIff`). With all pools healthy, an index below the cluster size and
  redirects only, that is when exactly one configuration was published since, or none and there is one
  pool (`NextNodeAfterRun`); it happens (`NextNodeWitness`).
- Storing a redirect's index makes its address the leader exactly when the address is the first healthy
  one from that index on in the current configuration (`StoreLeadsIff`). With all pools healthy and
  redirects only, that is when nothing was published since the lookup (`RedirectRaceIff`); otherwise the
  leader can be an address nobody redirected to (`StaleLeaderWitness`).
- Nothing sets a pool's `is_ok` back to true (`HealthNeverReturns`): it is healthy exactly as long as no
  connect, ping, send or serving has failed (`HealthyIff`).

## Model

| member | source | states |
|---|---|---|
| `TaskTable.Without` | stream/src/client/timer.rs:139-146 | removing by number keeps exactly the tasks with another number |
| `TaskTable.DrainAllKeepsLive` | stream/src/client/timer.rs:150-170 | draining the channel keeps the live tasks and their order, files all of them in the current second and leaves the last number processed |
| `TaskTable.TickKeepsValid` | stream/src/client/timer.rs:172-197 | a tick removes exactly the expired prefix of the live tasks; numbers keep increasing from oldest batch to channel and the shortcut bound never falls |
| `TaskTable.EraseKeepsValid` | stream/src/client/timer.rs:139-146 | taking a filed task removes it and nothing else, in whichever batch it is, and keeps the table valid |
| `TaskTable.FlushedKeepsValid` | stream/src/client/timer.rs:74-95 | cleaning empties the current second and every batch, and touches only those |
| `TaskTable.FlushOrderAt` | stream/src/client/timer.rs:74-95 | cleaning goes through the current second, then the batches from newest to oldest, each in order |
| `TaskTable.RegisterKeepsValid` | stream/src/client/timer.rs:115-120 | registering a larger number appends one live task and keeps the order the shortcuts rely on |
| `TaskTable.RefinesMap` | stream/src/client/timer.rs:70-197 | channel, current second and batches together behave as one map from number to task: register inserts, drain changes nothing, take deletes one key, a tick deletes the expired keys |
| `TaskTimer.PopLeast` | stream/src/client/timer.rs:184-189 | ordered iteration over a batch yields the smallest number first and leaves the rest |
| `TaskTimer.KeysInOrder` | stream/src/client/timer.rs:74-77 | the collected keys are the batch's numbers, ascending |
| `TaskTimer.ReportBatch` | stream/src/client/timer.rs:78-83 | each task of the batch is reported once, in order, and the batch ends empty |
| `TaskTimer.ReportQueue` | stream/src/client/timer.rs:84-95 | each task of each delay batch is reported once, newest batch first, and all batches end empty |
| `TaskTimer.TimeOutBatch` | stream/src/client/timer.rs:183-194 | every task of the popped batch is timed out once and the smallest number is found |
| `TaskTimer.AgeQueue` | stream/src/client/timer.rs:180-196 | the oldest batch is popped exactly when the queue exceeds the timeout, and its tasks are reported |
| `TaskTimer.QueueEmpty` | stream/src/client/timer.rs:105-110 | true if and only if no batch holds a task |
| `TaskTimer.ClientTaskTimer.constructor` | stream/src/client/timer.rs:47-64 | an empty table; channel capacity twice the threshold, 500 standing for zero |
| `TaskTimer.ClientTaskTimer.RegTask` | stream/src/client/timer.rs:115-120 | appends the task to the channel and to the live tasks |
| `TaskTimer.ClientTaskTimer.StopRegTask` | stream/src/client/timer.rs:123-125 | sets the stop flag and nothing else |
| `TaskTimer.ClientTaskTimer.GotPendingTask` | stream/src/client/timer.rs:164-170 | moves the channel's head into the current second, lowers the counter by one, keeps the representation invariant |
| `TaskTimer.ClientTaskTimer.PollSentTask` | stream/src/client/timer.rs:151-160 | drains the whole channel, lowers the counter by its length, reports whether there was anything |
| `TaskTimer.ClientTaskTimer.CleanPendingTasks` | stream/src/client/timer.rs:70-96 | no live task is left and each was reported once as an IO error, current second first, then newest batch to oldest |
| `TaskTimer.ClientTaskTimer.FlushFiled` | stream/src/client/timer.rs:74-95 | the second half of cleaning: filed tasks are reported, the channel is untouched |
| `TaskTimer.ClientTaskTimer.CheckPendingTasksEmpty` | stream/src/client/timer.rs:98-111 | true if and only if no task was live |
| `TaskTimer.ClientTaskTimer.AdjustTaskQueue` | stream/src/client/timer.rs:172-197 | the class performs exactly one tick of the table; the expired tasks are reported as timed out and no other |
| `TaskTimer.ClientTaskTimer.RemoveFiled` | stream/src/client/timer.rs:139-147 | returns and removes the filed task of that number, or proves there is none |
| `TaskTimer.ClientTaskTimer.PollTakeTask` | stream/src/client/timer.rs:127-148 | some task if and only if one with that number is live, unless registration was stopped with the number beyond the processed one; pending exactly while it may still be registered; both shortcuts are sound |
| `StreamProtocol.SendStepInv` | stream/src/client/stream.rs:239-328 | every step of send_task and send_request keeps the whole invariant: counter, table order, guards, close handshake, conservation |
| `StreamProtocol.SideStepInv` | stream/src/client/stream.rs:275-347 | ping, flush, forced error and drop keep the invariant; pings consume numbers without registering |
| `StreamProtocol.RecvStepInv` | stream/src/client/stream.rs:368-454 | every step of the polling loop and of the closing handshake keeps the invariant |
| `StreamProtocol.SendConserves` | stream/src/client/stream.rs:239-328 | sending adds exactly the new task and otherwise neither copies nor forgets one |
| `StreamProtocol.RecvConserves` | stream/src/client/stream.rs:416-454 | receiving, timing out, cleaning and aborting never copy or forget a task |
| `StreamProtocol.RecvAgeInv` | stream/src/client/timer.rs:172-197 | the delay queue has length min(ticks, timeout) |
| `StreamProtocol.RunInv` | stream/src/client/stream.rs:239-441 | the invariant holds after every interleaving of steps |
| `StreamProtocol.ReachableInv` | stream/src/client/stream.rs:195-221 | every reachable state satisfies the invariant |
| `StreamTheorems.CloseSafety` | stream/src/client/stream.rs:416-441 | once the receive loop has returned, channel, current second and every batch are empty and stay so, whatever the sender does |
| `StreamTheorems.NeverTwice` | stream/src/client/stream.rs:239-328 | no task is resolved twice, and a resolved task is nowhere else |
| `StreamTheorems.ResolvedAtExit` | stream/src/client/stream.rs:416-441 | at receiver exit every accepted task is resolved, or in the hands of a failing send, or the one a forced exit dropped |
| `StreamTheorems.AllResolvedIff` | stream/src/client/stream.rs:416-441 | at exit with an idle sender, all tasks are resolved exactly once if and only if none was dropped by a reader |
| `StreamTheorems.ExactlyOnceIff` | stream/src/client/stream.rs:505-522 | over whole runs: exactly-once at exit if and only if no reader was aborted while holding a task |
| `StreamTheorems.AbortedReadWitness` | stream/src/client/stream.rs:511-514 | a run that ends with an accepted task never resolved |
| `StreamTheorems.EncodeFailureIsForever` | stream/src/client/stream.rs:292-296 | after an encode failure the receiver never exits and that task is never resolved |
| `StreamTheorems.EncodeFailureWitness` | stream/src/client/stream.rs:292-296 | such a run exists |
| `StreamTheorems.ExitPath` | stream/src/client/stream.rs:416-441 | from every reachable state without an encode failure some continuation lets the receiver exit |
| `StreamTheorems.ExitPossibleIff` | stream/src/client/stream.rs:430-436 | exit is possible if and only if no encode failure happened |
| `StreamTheorems.ExitPossibleAfter` | stream/src/client/stream.rs:430-436 | after any run from the start, exit is still possible if and only if no encoding failed in that run |
| `StreamTheorems.AtMostOneLateRegistration` | stream/src/client/stream.rs:431-434 | after `closed` took effect at most one more task enters the channel, and only one that was already admitted |
| `StreamTheorems.GracefulClose` | stream/src/client/stream.rs:368-386 | without failures, a connection closed by dropping the sender resolves every accepted task exactly once and none with an IO error |
| `StreamTheorems.GracefulRun` | stream/src/client/stream.rs:150-157 | in such runs only the drop closes the connection and the receiver leaves only when nothing is live |
| `StreamTheorems.ChannelHasRoom` | stream/src/client/throttler.rs:28-39 | in-flight tasks never exceed threshold plus one, guards equal the items in channel, table, reader and the sender's last step, and registering never blocks on the channel |
| `StreamTheorems.TimeoutFrom` | stream/src/client/timer.rs:172-197 | a task k ticks old is in batch k + n after n more ticks, or timed out once that exceeds the timeout |
| `StreamTheorems.ExactTimeout` | stream/src/client/timer.rs:172-197 | a filed task that is never looked up nor cleaned is live and unresolved for T ticks and timed out by the (T+1)-th |
| `StreamTheorems.ShortcutBoundNeverFalls` | stream/src/client/timer.rs:180-195 | `min_delay_seq` never decreases over a run |
| `StreamLaws.OutcomeLaw` | stream/src/client/stream.rs:239-454 | over every run and for every outcome, the log has exactly the entries owed by its responses, ticks, failed reads, cleanings, refusals and failed writes |
| `StreamLaws.AnsweredLaw` | transport/tcp/src/client.rs:173-187 | tasks are answered, or failed with anything but an IO error or timeout, exactly as often as a response said so |
| `StreamLaws.RefusedSend` | stream/src/client/stream.rs:247-258 | a task offered to a closed connection fails with an IO error, the counter is back and the sender idle |
| `StreamLaws.FailedWrite` | stream/src/client/stream.rs:298-318 | a failed write leaves the connection closed and in error, registration stopped, the counter back and the task failed with an IO error |
| `StreamLaws.FailedRead` | transport/tcp/src/client.rs:132-137 | a body that cannot be read fails its task with an IO error and releases its guard |
| `StreamLaws.FlushedAll` | stream/src/client/timer.rs:74-95 | cleaning reports every filed task, as an IO error, and nobody else |
| `StreamLaws.FlagLaw` | stream/src/client/stream.rs:111-157 | between calls `closed`, `has_err` and the stop flag are set if and only if the run had one of the kinds of events that set them |
| `StreamLaws.CounterLaw` | stream/src/client/stream.rs:456-459 | every call, sequence number and tick is counted once; pings take numbers, too |
| `StreamLaws.AtMostOneLateNumber` | stream/src/client/stream.rs:330-338 | once closed, at most one more sequence number is taken, by a call or ping already let in |
| `StreamLaws.NeverStuck` | stream/src/client/stream.rs:416-441 | in every reachable state both processes have a step until they are gone, except a sender that the throttle holds while too much is in flight |
| `Wire.LERoundTrip` | stream/src/proto.rs:103-122 | little-endian fields of any width decode to what was encoded |
| `Wire.LEByte` | stream/src/proto.rs:103-122 | byte i of a field is digit i of the number to base 256 |
| `RequestFraming.WriteReqHead` | stream/src/proto.rs:135-150 | the in-place header write sets all 32 bytes and leaves the rest of the buffer alone |
| `RequestFraming.EncodeReq` | stream/src/proto.rs:154-186 | whatever the buffer held before, it then holds the frame up to the blob; refusal exactly when the codec fails, the message exceeds 32 bits or the blob an i32 |
| `RequestFraming.HeadRoundTrip` | stream/src/proto.rs:188-200 | decoding a written header gives back every field |
| `RequestFraming.RequestLayout` | stream/src/proto.rs:100-122 | every header byte of a request, a number as itself, a name as its length with the highest bit set |
| `RequestFraming.TcpServer.ReadReq` | transport/tcp/src/server.rs:92-176 | with its reused buffers the server returns exactly what the stream parser does, consumes those bytes, and reports the same error; a header read cancelled by the idle timer or the close notice is a timeout |
| `RequestFraming.RequestRoundTrip` | transport/tcp/src/server.rs:92-176 | a request parses back to itself, an empty blob as none, with exactly its bytes consumed |
| `RequestFraming.RequestArrives` | transport/tcp/src/server.rs:92-176 | the same with every limit and the received request spelled out |
| `RequestFraming.Truncated` | transport/tcp/src/server.rs:102-167 | a connection that ends anywhere inside a request is an IO error |
| `RequestFraming.Foreign` | transport/tcp/src/server.rs:113-117 | input without the magic number and version is a decode error |
| `RequestFraming.RequestRoundTripIff` | stream/src/proto.rs:165-172 | the round trip holds if and only if a numeric action is non-negative and an action name fits 31 bits |
| `RequestFraming.NegativeActionWitness` | stream/src/proto.rs:167-167 | action -1 is read as an action name of 2^31 - 1 bytes |
| `RequestFraming.RequestStreamRoundTrip` | transport/tcp/src/client.rs:252-274 | any list of well-formed requests, concatenated, parses back to that list with nothing left over |
| `ErrorCodec.NameRoundTrip` | stream/src/error.rs:460-489 | each internal error parses from its own name, which carries the reserved prefix |
| `ErrorCodec.FromNameReserved` | stream/src/error.rs:450-489 | a byte string parses to an internal error if and only if it is one of the nine names, and to the error of that name |
| `ErrorCodec.WireNames` | stream/src/error.rs:460-489 | the nine texts and the errors they stand for |
| `ErrorCodec.IntErrorFidelity` | stream/src/error.rs:346-376 | a built-in integer error decodes to itself when non-negative and to nothing otherwise |
| `ResponseFraming.WriteRespHead` | stream/src/proto.rs:362-375 | the in-place header write sets all 20 bytes in struct order and leaves the rest alone |
| `ResponseFraming.EncodeError` | stream/src/proto.rs:328-360 | the header replaces the reserved room and the text goes behind what was already written |
| `ResponseFraming.EncodeResp` | stream/src/proto.rs:266-306 | buffer and returned blob together are the response, over-long parts turned into encode errors |
| `ResponseFraming.BlobDelivered` | stream/src/proto.rs:288-300 | any message and blob within 32 and 31 bits arrive as they are, an empty one as none, and the reader is at the next frame |
| `ResponseFraming.MessageDelivered` | stream/src/proto.rs:279-287 | any message within 32 bits arrives, or is a decode error if the task cannot decode it |
| `ResponseFraming.BlobRefused` | transport/tcp/src/client.rs:142-153 | a task that takes no blob is told a decode error and the blob is dropped |
| `ResponseFraming.ErrorDelivered` | transport/tcp/src/client.rs:79-111 | errors arrive as their number, as the internal error of that name, or as their text |
| `ResponseFraming.TooLong` | stream/src/proto.rs:279-297 | what exceeds the header's fields arrives as an encode error when nothing was written |
| `ResponseFraming.Truncated` | transport/tcp/src/client.rs:132-168 | a connection that ends inside a response is an IO error, and a found task has been told so once the header was complete |
| `ResponseFraming.Foreign` | stream/src/proto.rs:377-389 | a wrong magic number is an IO error, a wrong version a version error |
| `ResponseFraming.HeadRoundTrip` | stream/src/proto.rs:377-389 | decoding a written response header gives back every field |
| `ResponseFraming.ResponseLayout` | stream/src/proto.rs:242-260 | every header byte of a response in the struct's order, with the flags 0, 1 and 2 |
| `ResponseFraming.TcpClient.RecvAndDump` | transport/tcp/src/client.rs:52-70 | succeeds if and only if the length is a positive i32, the buffer can be allocated and that many bytes arrive, and then skips exactly them |
| `ResponseFraming.TcpClient.RecvError` | transport/tcp/src/client.rs:73-115 | numeric and textual errors are delivered as the parser says, consuming exactly the text |
| `ResponseFraming.TcpClient.RecvRespBody` | transport/tcp/src/client.rs:118-203 | for a found and for an unknown task the body is handled as the parser says, with the reused buffer |
| `ResponseFraming.TcpClient.ReadOne` | transport/tcp/src/client.rs:278-322 | one call reads one response and leaves the stream where the parser leaves it; the close notice cancels a header read after any number of its bytes |
| `ResponseFraming.FramingIff` | transport/tcp/src/client.rs:278-322 | for every response, found or unknown task: the reader stands at the next frame if and only if the message length is true, errors come with nothing written, the text fits an i32, and whatever must be dropped fits an i32 and can be allocated |
| `ResponseFraming.OversizedBlob` | stream/src/proto.rs:293-296 | after any message with a blob over the limit the reader resumes inside the frame, as many bytes early as the message has |
| `ResponseFraming.PartialMessageWitness` | stream/src/proto.rs:293-296 | one message byte and 2^31 blob bytes: the next read starts at the last letter of the error text |
| `ResponseFraming.CancelSafeIff` | transport/tcp/src/client.rs:284-298 | cancelling a header read leaves the reader at a frame boundary for every well-formed response if and only if it had taken no byte |
| `ResponseFraming.CutHeader` | transport/tcp/src/client.rs:284-298 | after a header read cancelled one to three bytes in, or later where the bytes do not spell the magic number, the next read fails |
| `ResponseFraming.KnownSync` | transport/tcp/src/client.rs:126-187 | a found task is told what the server sent, or a decode error, and the whole frame is consumed |
| `ResponseFraming.KnownSyncOnly` | transport/tcp/src/client.rs:126-187 | a found task's response that leaves the reader at the next frame was well encoded, and a refused blob could be dropped |
| `ResponseFraming.UnknownSyncIff` | transport/tcp/src/client.rs:188-202 | an unknown task's response is skipped to the next frame if and only if it is well encoded, its body fits an i32 and the buffer can be allocated |
| `ResponseFraming.SilentDesync` | transport/tcp/src/client.rs:191-198 | a body beyond 32 bits is skipped 2^32 bytes short without an error |
| `ResponseFraming.FrameSync` | transport/tcp/src/client.rs:278-322 | on every outcome one response consumes one frame |
| `ResponseFraming.StreamSync` | transport/tcp/src/client.rs:278-322 | over any stream of well-formed responses, with tasks found or not, the reader stays on the boundary and delivers each result in order |
| `ResultFidelity.RespondWellEncoded` | src/server/task.rs:27-86 | every response an API method can produce is well encoded |
| `ResultFidelity.EndToEnd` | src/server/task.rs:27-86 | through encoder, wire, reader and process_res the caller gets the result stated without the wire; static texts never reach the client |
| `ResultFidelity.AnswerFidelity` | src/client/task.rs:57-86 | a value that its codec round-trips to a non-empty message is what the caller gets |
| `ResultFidelity.IntErrorEndToEnd` | stream/src/error.rs:346-376 | a numeric error arrives unchanged when non-negative, otherwise as a decode error, never as another value |
| `ResultFidelity.TextErrorIff` | stream/src/error.rs:423-442 | a text error arrives unchanged if and only if it is not one of the reserved names, and as that internal error otherwise |
| `Cluster.SelectFrom` | stream/src/client/failover.rs:277-282 | the first healthy position of one cycle, or none if and only if none is healthy |
| `Cluster.IndexOf` | stream/src/client/failover.rs:286-295 | the first pool with the address, or none if and only if there is none |
| `Cluster.FailoverPool.constructor` | stream/src/client/failover.rs:96-110 | version 0, counter 0, one pool per address in order |
| `Cluster.FailoverPool.Select` | stream/src/client/failover.rs:255-283 | the search starts after the last index or at the counter, which advances only for a stateless first selection on a non-empty cluster |
| `Cluster.FailoverPool.GetByAddr` | stream/src/client/failover.rs:286-295 | the scan finds the first occurrence |
| `Cluster.FailoverPool.GetOrAddAddr` | stream/src/client/failover.rs:180-211 | returns a pool with the address and its index and version; the cluster changes only when the address is missing, by one pool in front and one version |
| `Cluster.FailoverPool.UpdateAddrs` | stream/src/client/failover.rs:213-242 | exactly the requested addresses in order, the old pool at the first occurrence of its address, a new one otherwise, one version up |
| `Cluster.LastWins` | stream/src/client/failover.rs:219-221 | of several old pools with one address the last is the one reused |
| `Cluster.RebuildPools` | stream/src/client/failover.rs:222-235 | the loop builds the same pools as the recursive specification |
| `Cluster.RebuildCorrect` | stream/src/client/failover.rs:222-235 | no pool is used twice, and each position holds the reusable pool of its address or a new one |
| `Cluster.UpdatedPools` | stream/src/client/failover.rs:213-242 | the same for a whole update, whatever the old addresses |
| `Cluster.RedirectAddsOnce` | stream/src/client/failover.rs:198-209 | adding a missing address keeps addresses distinct and puts it at index 0 |
| `Rotation.RetryCounts` | stream/src/client/failover.rs:264-283 | after n retries the index has passed exactly n healthy positions and stands on one |
| `Rotation.RetryPeriod` | stream/src/client/failover.rs:264-283 | h healthy pools of l: h retries advance the un-reduced index by exactly l |
| `Rotation.RetriesHitEachOnce` | stream/src/client/failover.rs:264-283 | any h consecutive retries hit each healthy pool exactly once at strictly increasing indices |
| `Rotation.RetryLeaves` | stream/src/client/failover.rs:264-283 | a retry returns to the position it left only when no other position answers healthy |
| `Rotation.RoundRobinFair` | stream/src/client/failover.rs:268-271 | n consecutive counter values visit each of l pools floor(n/l) or ceil(n/l) times |
| `FailoverRuns.StepInv` | stream/src/client/failover.rs:131-242 | every send, retry, redirect, store, next-node call and update keeps the stamp invariant, on any snapshot |
| `FailoverRuns.StampSound` | stream/src/client/failover.rs:303-331 | in every run, a stamp equal to the current version means the index names the pool the task was last sent to, unless 2^64 versions passed |
| `FailoverTheorems.SendRoutes` | stream/src/client/failover.rs:418-431 | a fresh request goes to the first healthy position from the shared counter on, which moves in stateless mode only, or is given up if and only if none answers |
| `FailoverTheorems.RetryRoutes` | stream/src/client/failover.rs:303-331 | in either mode: under another version a retry restarts at the shared counter, under its own it goes on after its index and leaves the counter alone |
| `FailoverTheorems.RestartWitness` | stream/src/client/failover.rs:310-317 | a stateful retry after an insertion goes to the leader, not to the pool it failed on |
| `FailoverTheorems.NextNodeRoutes` | stream/src/client/failover.rs:156-170 | the next node starts after the reported index, whatever the version |
| `FailoverTheorems.UpdateRoutes` | stream/src/client/failover.rs:213-242 | an update publishes exactly the requested addresses and moves no task, leader or counter |
| `FailoverTheorems.EndRoutes` | src/client/mod.rs:120-162 | a finished task is gone, a refused one back with its routing data, a store uses up its own redirect only |
| `FailoverTheorems.NeverInTwoPlaces` | stream/src/client/failover.rs:131-176 | in every run no task is submitted and back at its caller at once |
| `FailoverTheorems.RetryLeavesPool` | stream/src/client/failover.rs:303-331 | under an unchanged configuration a retry moves forward and returns to its pool only when no other is healthy |
| `FailoverTheorems.RetriesInTurn` | stream/src/client/failover.rs:303-331 | with configuration and health fixed, however other tasks interleave, the n-th retry of a task is at the index of the n-th rotation step |
| `FailoverTheorems.TurnOf` | stream/src/client/failover.rs:303-331 | in every such run each healthy pool has one turn among h retries: the task is there after that many retries and after no other number up to h |
| `FailoverTheorems.NextNodeReturnsIff` | stream/src/client/failover.rs:156-170 | on any configuration, a refused task returns to the pool that refused it if and only if that pool is the first healthy position after the index the task reported |
| `FailoverTheorems.NextNodeAfterInsertions` | stream/src/client/failover.rs:156-170 | the same in numbers when k redirects put pools in front since |
| `FailoverTheorems.NextNodeAfterRun` | src/client/mod.rs:149-159 | over any run of other tasks' steps without updates: all healthy and index below the size, it returns if and only if exactly one configuration was published since, or none and there is one pool |
| `FailoverTheorems.NextNodeWitness` | src/client/mod.rs:149-159 | a run from the start in which the next node is the pool that refused |
| `FailoverTheorems.NextNodeLeaves` | stream/src/client/failover.rs:156-170 | under the configuration the task was sent on, it returns if and only if no other pool answers and its own does |
| `FailoverRuns.AddressesStayDistinct` | stream/src/client/failover.rs:180-242 | however redirects race, an address is never in the current configuration twice |
| `FailoverRuns.StepAddrInv` | stream/src/client/failover.rs:180-242 | each step keeps the current addresses distinct, updates asking for distinct ones |
| `FailoverRuns.StepIdInv` | stream/src/client/failover.rs:180-242 | no published configuration ever holds one pool twice, whatever updates ask for |
| `FailoverRuns.RedirectFinds` | stream/src/client/failover.rs:180-211 | whichever way a redirect took, its task goes to its address and its pending index is where that address was found |
| `FailoverRuns.RunGrows` | stream/src/client/failover.rs:198-209 | without updates every published configuration is the one before with one pool in front |
| `FailoverTheorems.OrdinaryRun` | stream/src/client/failover.rs:264-276 | traffic without redirects and updates never moves a stateful pool's leader |
| `FailoverTheorems.LeaderAffinity` | stream/src/client/failover.rs:264-283 | after any such traffic a fresh request goes to the same pool as before, under the same health |
| `FailoverTheorems.FollowsRedirect` | stream/src/client/failover.rs:138-154 | a redirect, any steps without updates, its store, any ordinary traffic, a fresh request: it goes to the redirected address if and only if that leads by the condition above; all healthy, if and only if nothing was published since the lookup |
| `FailoverTheorems.StoreLeadsIff` | stream/src/client/failover.rs:140-143 | whatever was published since the lookup, storing a redirect's index makes its address lead if and only if it is in the current configuration and the first healthy one from that index on |
| `FailoverTheorems.RaceIff` | stream/src/client/failover.rs:180-211 | with k pools put in front since the lookup: if and only if it is healthy and the k pools from its index on are not; all healthy, if and only if k is 0 |
| `FailoverTheorems.RedirectRaceIff` | stream/src/client/failover.rs:138-143 | the same over any run of sends, retries, redirects and stores between lookup and store |
| `FailoverTheorems.StaleLeaderWitness` | stream/src/client/failover.rs:140-143 | two racing redirects to "b" and "c" leave the leader at "a" |
| `FailoverTheorems.FairInEveryRun` | stream/src/client/failover.rs:418-431 | stateless, all healthy: under any interleaving of callers, retries and completions every pool gets floor(n/l) or ceil(n/l) of n first selections |
| `ApiCall.LifeBound` | stream/src/client/failover.rs:387-397 | a task starting at retry r is submitted at least once and at most limit - r + 1 times |
| `ApiCall.CallBound` | src/client/mod.rs:114-168 | one call makes at most (limit + 1) * max(limit, 1) submissions |
| `ApiCall.CallBoundTight` | src/client/mod.rs:114-168 | some environment reaches that bound whenever an error asks for the next node |
| `ApiCall.APIClientReq.Done` | src/client/task.rs:135-138 | the notifier is consumed; callable only with a notifier and a result present |
| `ApiCall.APIClientReq.Process` | src/client/task.rs:57-86 | yields the specified result and empties the result slot |
| `ApiCall.APIClientReq.SetCustomError` | src/client/task.rs:113-121 | the slot holds the error, with the routing data it came with |
| `ApiCall.FailoverTask.SetRpcError` | stream/src/client/failover.rs:512-520 | retriable exactly below `Method`, which also raises the retry count |
| `Errors.Retriable` | stream/src/client/failover.rs:513-518 | exactly unreachable, IO and timeout errors are retried |
| `ApiCall.FailoverTask.ErrorHandle` | stream/src/client/failover.rs:387-397 | handed to the retry worker if and only if retriable and within the limit, otherwise finished |
| `ApiCall.FailoverTask.Tell` | transport/tcp/src/client.rs:118-187 | every delivery sets a result before the task is finished or retried; a user error carries the wrapper's own index and version |
| `ApiCall.RunLife` | stream/src/client/failover.rs:303-341 | a submitted task goes through retries exactly as specified, routed by its stamp, never reaches done without notifier and result, and reports where a user error came from |
| `ApiCall.CallAgain` | src/client/mod.rs:130-162 | a redirect keeps the call's count; the next node is asked for after the index the task reported, which is where it was refused |
| `ApiCall.CallLaw` | src/client/mod.rs:106-169 | stated on the environment: where every submission of a call goes, within which budget, why the last one is last, and what the call yields |
| `ApiCall.CallResult` | src/client/mod.rs:119-167 | the result is the caller's view of the last delivery, an internal error for a vanished one, unreachable when routing found no pool; user errors only on stop or a spent budget |
| `ApiCall.LawIsComplete` | src/client/mod.rs:106-169 | the law leaves nothing open: it determines the submissions and the result |
| `ApiCall.Call` | src/client/mod.rs:106-169 | the call loop obeys the law, within the bound, and no unwrap fails, also after the result was taken and the task resubmitted |
| `ConnPool.SpawnInv` | stream/src/client/pool.rs:126-129 | a spawned worker never gets id 0 while a handle exists |
| `ConnPool.CasInv` | stream/src/client/pool.rs:264-271 | the swap succeeds only for a monitor that is the pool's only worker |
| `ConnPool.HandOverInv` | stream/src/client/pool.rs:272-276 | the handover moves id 0 to the fresh worker and nowhere else |
| `ConnPool.StepInv` | stream/src/client/pool.rs:233-318 | every step of every worker keeps one monitor and the exact count |
| `ConnPool.UniqueMonitor` | stream/src/client/pool.rs:233-318 | in every run, while a pool handle exists, exactly one worker has id 0 |
| `ConnPool.WorkerCount` | stream/src/client/pool.rs:164-176 | the counter is the number of workers not yet subtracted, plus one between the swap and the spawn |
| `ConnPool.HealthNeverReturns` | stream/src/client/pool.rs:188-191 | an unhealthy pool stays unhealthy over any run |
| `ConnPool.HealthyIff` | stream/src/client/pool.rs:188-191 | over any run a pool is healthy if and only if no connect, ping, send or serving failed |
| `ConnPool.MonitorOnlyPings` | stream/src/client/pool.rs:241-247 | while more than one worker is counted the monitor takes nothing from the task queue |
| `ConnPool.CrowdedSecond` | stream/src/client/pool.rs:241-247 | among other workers a monitor pings and is where it was |
| `ConnPool.SilentSecond` | stream/src/client/pool.rs:257-263 | a lone monitor pings after a silent second and is where it was |
| `ConnPool.LoneServes` | stream/src/client/pool.rs:264-297 | a lone monitor with nothing in flight sends the task itself and is where it was |
| `ConnPool.LoneHandover` | stream/src/client/pool.rs:264-276 | a lone monitor with tasks in flight becomes worker 1 and a fresh monitor is born, two being counted |
| `ConnPool.HandoverNeedsInflight` | stream/src/client/pool.rs:264-276 | without tasks in flight no monitor hands over in any run |
| `ConnPool.LoneEnd` | stream/src/client/pool.rs:254-256 | with all handles gone a lone monitor ends |
| `ConnPool.WorkerStarts` | stream/src/client/pool.rs:234-316 | a connected worker monitors with id 0 and serves otherwise, as does a former monitor; a failed connect is tried again |
| `ConnPool.WorkerEnds` | stream/src/client/pool.rs:277-308 | any other worker ends after a failed send or the end of serving, and is subtracted |
| `ConnPool.MonitorReconnects` | stream/src/client/pool.rs:243-283 | a failed ping or send makes the monitor reconnect as the monitor |

## Left out

- Procedural macros, the MessagePack codec, service dispatch, listeners, graceful restart and signal handling: token generation, thin wrappers and delegation.
- Sockets, timers, the executor and allocation: their results and the order of steps are chosen by the environment; the runs cover every choice.
- Weak memory orderings: `closed` is loaded with Acquire on the sending side; all steps here are sequentially consistent.
- The sender and receiver of `stream/src/client/stream.rs`, the failover runs and the pool workers are concurrent processes and are modelled as values stepping from state to state, not as objects; the timer, the framing ends, the cluster and the tasks are classes.
- How many header bytes a cancelled read has taken: the stream type is outside the repository, so the model allows any number.
- Overflow of `usize` indices and of the 64-bit sequence number; the version counter's wrap is modelled.
- Overflow checks of debug builds: 32-bit sums wrap as in release builds.
- Liveness under scheduling: `StreamTheorems.ExitPath` shows that exit is possible, not that a scheduler gets there.
- The queue of tasks in front of a pool and its cleanup, `connected_worker_count`, logging and timestamps.
- Ping frames and internal responses (`encode_ping`, `encode_internal`): the cases of `RequestFraming.WriteReqHead` and `ResponseFraming.EncodeResp` with empty bodies.
- The unit error codec, which has one value, and the errno codec of `nix`, whose values are defined outside the repository.
- Reading of a response after the sender stopped registration and before the receiver drained the channel: the lookup answers none, as `TaskTimer.ClientTaskTimer.PollTakeTask` states, and the task then times out.
- ApiCall.Call: what routing answers is a parameter; how the answer comes about is the subject of FailoverRuns.
- ResponseFraming.TcpClient.RecvAndDump: allocation of a buffer with a non-positive length is taken to fail.
- StreamTheorems.ChannelHasRoom: assumes that the wait group releases a waiter only at or below the threshold, and a threshold of at least 1 as the stream's constructor ensures.
- ResultFidelity.AnswerFidelity: a result whose encoding is empty comes back as the default value, and the codec's own round trip is a premise.

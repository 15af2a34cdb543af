# TaskHive in Dafny

TaskHive is a distributed task system in C++: clients submit tasks to schedulers, schedulers publish them
through a message broker to workers, workers run them on a thread pool, and results come back through the
broker and Redis. This project models its five hardest parts and proves what they promise over every input
and every run.

* **Thread pool** (`PoolModel`, `PoolInvariant`, `PoolTheorems`, `PoolLimit`, `PoolOutcomes`). A step machine with one step per access to
  shared state: mutex, wait sets, notifications, each atomic read, the unlocked flip of `running_`. Main
  results: `StopDrains`, `DrainsExactly`, `NoLostWakeup`, `ShutdownBounded`, `ShutdownProgress`,
  `StopProgress`, `SignalAccounting`, `CountersMean`, `SettledNeverGrows`, `LimitExactly`,
  `Retires`, `ShrinksBack`.
* **Wire codec and transport** (`Wire`, `Utf8`, `Codec`, `CodecTheorems`, `Truncation`, `Messages`, `MessageCode`,
  `MessageSize`, `Transport`). The codec is stated once over field tables; the generated parse and serialize routines are
  written out as loops over positions and proved equal to it. The central fact is `PrefixParse`: what parsing
  any prefix of any serialization gives. From it follow the round trip, the merge law, exactly which messages
  survive the NUL-terminated strings they are handed over as, and that no cut message passes for the whole.
* **Load balancer** (`Ring`, `RoundRobin`, `Balancer`, `LoadBalancer`). Ring construction, lookup, stability,
  exact weighted round robin, and membership over every interleaving, with the object's methods proved to be
  the steps of that model.
* **Asynchronous log** (`LogBuffer`, `LogWorker`, `AsyncWorker`). The growable byte buffer on a real array,
  and the double-buffer protocol over two such buffers.
* **Pipeline and scheduler table** (`Pipeline`, `Stamps`, `Awaiting`, `FailureTexts`, `ShortMessages`, `NulId`,
  `LongTask`, `EndedLoop`, `SchedulerTable`). A task's way from the client and back with redelivery, partial reads, loss and expiry, and the client's mark-and-sweep table.

`Sums` holds sums and multiset unions over sequences.

## Where the code does not keep what one would expect

* A pool built with no initial thread accepts tasks and throws them away in the clean-up loop of `stop()`.
  `PoolTheorems.DrainsExactly` gives the exact condition, `PoolTheorems.StrandedStop` the run.
* A result stored under an id is that id's own exactly when the id has no NUL byte
  (`Pipeline.ProvenanceExact`): the Redis key is a C string. `NulId.NulIdTakesForeignResult` is a complete run
  in which a client files one task's result under another task's id.
* A message crosses the broker unchanged exactly when its strings are UTF-8 without NUL and every map key and
  value is non-empty (`Transport.Delivery`). Otherwise the consumer rejects it, as in `EndedLoop.CutIdRejected`;
  it never sees another message.
* The scheduler reads a submission once, into 4096 bytes, and parses what that read returned. It gets the
  submitted task exactly when the read returned all of it and the strings are UTF-8
  (`Transport.SocketReceipt`); some read can do that exactly when the task sets a field, is UTF-8 and is no
  longer than 4096 bytes (`Transport.SocketExact`). Otherwise it may go on with fields missing, though always
  under the right id. `LongTask.LongTaskCut` is such a task, and `LongTask.RunsWithoutParameters` a run in
  which its command is executed without its parameters.
* A message that does not parse throws out of the consume loop and ends it. Over every run, a worker's loop
  has ended exactly when it was handed a task that does not travel, and a scheduler's exactly when it was
  handed such a result (`Pipeline.DeafMeans`); it then receives nothing more (`Pipeline.LoopEnds`).
  `EndedLoop.CutIdRejected` and `EndedLoop.BinaryRejected` are such messages, and `EndedLoop.WorkerGoesDeaf`
  and `EndedLoop.SchedulerGoesDeaf` runs with them.
* The pool's thread limit is tested before a spawned thread is counted. The counter stays within the limit
  over all runs exactly when the limit is not below the initial size and the pool is fixed, has no initial
  thread or accepts nothing (`PoolLimit.LimitExactly`). With a limit below the initial size start() alone breaks it
  (`PoolLimit.StartCounts`); `PoolLimit.Overrun` is a run that breaks it in every other pool that can grow.
* The submit loop picks a scheduler again while the picked entry has no ip. That comes to an end exactly when
  some entry of the table has one (`SchedulerTable.RetryEndsExactly`); `SchedulerTable.BlankEntryNeverEnds` is a
  table on which it does not.
* A capability that `std::stod` cannot read aborts a discovery round before the ring is rebuilt, and the hash
  lookup can then meet an empty ring (`Balancer.ThrowingRoundBreaksLookup`). Over any sequence of events that
  happens exactly when somebody is healthy now and nobody was after the last round whose heartbeats all read,
  which takes a throwing round since (`Balancer.LookupFailsExactly`).

## Assumptions

* One `start()` completes before `stop()`; the two counters of each paired update change together; a
  condition variable may wake spuriously, and a timed wait may time out at any moment.
* Setting `stop_` and the unlocked exit test of the log consumer never fall inside a push; the callback does
  not move the buffer's positions; `reserve` allocates exactly what it is asked for.
* Hashes are an arbitrary function; load figures are real numbers; counters do not wrap around.
* Messages are smaller than 2 GiB, as the generated code requires. Tags that no field has are answered
  `Unmodelled` and nothing is claimed about them.
* A Redis command takes effect exactly when its reply says so.
* Broker, Redis, sockets, ZooKeeper, clocks and task functions appear as parameters of the steps.

## Model

| member | source | states |
|---|---|---|
| `PoolInvariant.ReachableInv` | src/threadpool.cpp:18-153 | in every state any interleaving reaches: one mutex holder, queue size and what its holder learned, the task ledger, no owed wake-up, counter meaning, shutdown phases |
| `PoolInvariant.Kept` | src/threadpool.cpp:36-153 | each step of worker, submitter, start and stop keeps the whole invariant |
| `PoolInvariant.LockKeptWorker` | src/threadpool.cpp:75-121 | no worker step lets two threads hold the mutex, or loses track of its holder |
| `PoolInvariant.LedgerKept` | src/threadpool.cpp:113-135 | every step keeps accepted = removed + discarded + queued in order, ids distinct, and every removed task either invoked or in one worker's hands |
| `PoolInvariant.SignalKeptWorker` | src/threadpool.cpp:75-121 | no worker step leaves a sleeper with a wake-up owed to it |
| `PoolInvariant.SignalKeptCall` | include/threadpool.h:69-124 | no submitter step does either, counting as cover only submitters that have slept and been woken |
| `PoolInvariant.StopKeptFence` | src/threadpool.cpp:45-47 | once stop has passed its empty lock block, nobody is between a true read of `running_` and acting on it |
| `PoolInvariant.JoinedMeansClosed` | src/threadpool.cpp:51-65 | when all threads have finished, the queue is empty and stays so, because retirement never empties the pool |
| `PoolTheorems.FirstInFirstOut` | include/threadpool.h:69-93 | tasks leave in the order they entered; none is invoked twice or without being accepted |
| `PoolTheorems.StopDrains` | src/threadpool.cpp:36-66 | when stop has joined, every accepted task has been invoked exactly once and the clean-up loop discards nothing |
| `PoolTheorems.DrainsExactly` | src/threadpool.cpp:36-66 | over all runs nothing is discarded if and only if the pool has an initial thread or accepts nothing |
| `PoolTheorems.StrandedStop` | src/threadpool.cpp:60-65 | the run in which a pool without threads discards an accepted task |
| `PoolTheorems.NoAcceptAfterExit` | include/threadpool.h:82-90 | after any worker has left through the shutdown test, no submit succeeds in any continuation |
| `PoolTheorems.SignalAccounting` | include/threadpool.h:82-122 | size counter equals queue length within the threshold; a sleeping worker implies the queue is covered by pending signals and awake workers; while running, a sleeping submitter implies the queue and the submitters woken from sleep fill the threshold |
| `PoolTheorems.NoLostWakeup` | src/threadpool.cpp:38-58 | after fence and notify_all no worker, and after the second no submitter, sleeps or can sleep again; the queue only shrinks |
| `PoolTheorems.ShutdownBounded` | src/threadpool.cpp:38-58 | from there on threads and calls take at most as many steps as a measure of queued tasks, threads and calls |
| `PoolTheorems.ShutdownProgress` | src/threadpool.cpp:52-58 | while some thread has not finished, a thread or the call holding the mutex can move, so join does not wait for ever |
| `PoolTheorems.StopProgress` | src/threadpool.cpp:36-66 | in every reachable state before stop has returned, something other than a new submit call can happen, up to and including the clean-up under the mutex |
| `PoolTheorems.CountersMean` | src/threadpool.cpp:120-134 | current minus idle is the number of threads running a task; while running, at least the initial number of threads live |
| `PoolOutcomes.Retires` | src/threadpool.cpp:86-110 | a sleeping thread of a quiet Cache pool that times out can run to its end: it leaves and is taken off both counters if and only if there are more threads than the initial number |
| `PoolOutcomes.ShrinksBack` | src/threadpool.cpp:86-110 | any reachable Cache pool at rest has a continuation to exactly its initial number of threads |
| `PoolOutcomes.IdleSleeps` | src/threadpool.cpp:75-84 | a thread of a quiet pool that finds nothing to do goes to sleep and changes nothing else |
| `PoolOutcomes.Looks` | include/threadpool.h:82-91 | what a submit call sees decides it: past the wait with room or after stop, rejected when late, otherwise to sleep |
| `PoolOutcomes.Accepted` | include/threadpool.h:82-91 | with room in a running pool a call ends with its task last in the queue |
| `PoolOutcomes.NotAccepted` | include/threadpool.h:110-122 | with a full queue it sleeps, or is rejected for time if its deadline has passed, and queues nothing |
| `PoolOutcomes.TurnedAway` | include/threadpool.h:82-91 | once stopped it is rejected as stopped and queues nothing |
| `PoolOutcomes.RejectionsFair` | include/threadpool.h:97-124 | in every reachable state only submit_for calls that have waited are rejected for time, and none as stopped before stop was called |
| `PoolTheorems.GrowthNeedsUncounted` | src/threadpool.cpp:138-150 | the growth guard reads zero idle threads only while a spawned thread is uncounted |
| `PoolTheorems.SettledNeverGrows` | src/threadpool.cpp:138-150 | once start-up has settled the pool never grows, in any continuation |
| `PoolLimit.LimitExactly` | src/threadpool.cpp:138-150 | over all runs the thread counter stays within the limit if and only if the limit is not below the initial size and the pool is fixed, has no initial thread or accepts nothing |
| `PoolLimit.Overrun` | src/threadpool.cpp:138-150 | every pool that can grow, with a limit not below its initial size, has a run that counts one thread more than the limit |
| `PoolLimit.StartCounts` | src/threadpool.cpp:18-34 | start counts every initial thread, whatever the limit |
| `PoolLimit.StillAlong` | src/threadpool.cpp:18-34 | a pool that cannot grow never counts more threads than start has counted |
| `CodecTheorems.PrefixParse` | proto/task.pb.cc:478-590 | parsing any prefix of a serialization applies its whole records and succeeds only at a record boundary with clean UTF-8 |
| `CodecTheorems.RecordCut` | proto/task.pb.cc:478-590 | a record cut anywhere inside is rejected |
| `CodecTheorems.RoundTrip` | proto/task.pb.cc:592-696 | parsing a serialization gives the message back for any map order and all field values when the strings are UTF-8, and is rejected otherwise |
| `CodecTheorems.ParseMerges` | proto/task.pb.cc:773-807 | parsing a serialization onto an existing message is merging the message into it |
| `CodecTheorems.ConcatenationMerges` | proto/task.pb.cc:773-807 | parsing two serializations in a row is MergeImpl of the second into the first, and is rejected exactly when a string of either is not UTF-8 |
| `Truncation.PrefixExact` | proto/task.pb.cc:478-590 | a prefix of a serialization parses to the message if and only if it is the whole serialization and the strings are UTF-8 |
| `Truncation.PrefixIsPart` | proto/task.pb.cc:478-590 | whatever a prefix parses to has each field of the message or unset, and of a map some of its entries |
| `CodecTheorems.NoZeroByte` | proto/task.pb.cc:592-696 | a serialization has no zero byte if and only if strings are NUL-free and map keys and values also non-empty |
| `CodecTheorems.SizeExact` | proto/task.pb.cc:698-764 | the serialized length is the sum of the record sizes |
| `Wire.VarintRoundTrip` | proto/task.pb.cc:478-590 | reading a written varint gives the number and stops right after it |
| `Wire.VarintMeans` | proto/task.pb.cc:592-696 | a varint is the shortest run of seven-bit groups, least significant first, for its number |
| `Wire.ReadVarintMeans` | proto/task.pb.cc:478-590 | reading takes the first run of groups in any form and fails exactly when none ends within the limit |
| `Wire.TwosComplement` | proto/task.pb.cc:592-696 | numbers and their wire forms agree modulo 2^64, and 32-bit readings modulo 2^32 |
| `Wire.NegativeIsLong` | proto/task.pb.cc:592-696 | a negative number of any width takes ten bytes |
| `Utf8.ValidMeans` | proto/task.pb.cc:485-495 | the parser's text test accepts exactly the encodings of sequences of Unicode scalar values |
| `Wire.DelimitedRoundTrip` | proto/task.pb.cc:478-590 | the same for length-delimited payloads |
| `MessageCode.ParseTask` | proto/task.pb.cc:478-590 | the parse loop over positions computes the table-driven parse of a Task |
| `MessageCode.ParseTaskField` | proto/task.pb.cc:483-580 | the switch picks the field its tag byte names and changes only that field |
| `MessageCode.ParseResult` | proto/task.pb.cc:993-1117 | the same for TaskResult |
| `MessageCode.ParseResultField` | proto/task.pb.cc:998-1105 | its switch |
| `MessageCode.ParseHeartbeat` | proto/task.pb.cc:1517-1601 | the same for both heartbeats, which differ in the width of the timestamp |
| `MessageCode.ParseHeartbeatField` | proto/task.pb.cc:1936-2020 | its switch |
| `MessageCode.SerializeTask` | proto/task.pb.cc:592-696 | the generated writer, defaults omitted, produces the table-driven serialization in the given map order |
| `MessageCode.SerializeResult` | proto/task.pb.cc:1119-1214 | the same for TaskResult |
| `MessageCode.SerializeHeartbeat` | proto/task.pb.cc:2022-2102 | the same for both heartbeats |
| `MessageSize.SizeMatchesSerialization` | proto/task.pb.cc:698-764 | the size computed walking maps in one order is the length serialized in any other |
| `MessageSize.TaskByteSize` | proto/task.pb.cc:698-764 | ByteSizeLong of a Task computes that size |
| `MessageSize.EntriesByteSize` | proto/task.pb.cc:705-712 | its loop over the metadata |
| `MessageSize.MergeTask` | proto/task.pb.cc:773-807 | MergeImpl of a Task computes the table-driven merge |
| `Transport.CString` | include/message_queue.h:506 | a C string is the longest NUL-free prefix of a buffer |
| `Transport.Delivery` | include/message_queue.h:506 | sent as a C string and parsed by length, a message is unchanged exactly when NUL-free with non-empty map entries and UTF-8, and otherwise rejected |
| `Transport.TaskDelivery` | include/message_queue.h:234-236 | that condition field by field for a Task, for any map order |
| `Transport.ResultDelivery` | include/message_queue.h:674-676 | and for a TaskResult |
| `Transport.PublishTask` | include/message_queue.h:483-540 | what the broker receives of a task |
| `Transport.PublishResult` | include/message_queue.h:351-400 | what it receives of a result |
| `Transport.TaskJourney` | include/message_queue.h:191-274 | publishing, then the consumer's parse loop: the task itself or a rejection |
| `Transport.ResultJourney` | src/scheduler.cpp:335-352 | published, parsed, stored in Redis, fetched, deleted and parsed again, for every combination of Redis replies: the client gets the published result under its id exactly when it travels, is stored and the query is answered |
| `Transport.TakeResult` | src/client.cpp:205-237 | one query of the client: what is found is parsed, and once deleted a second query finds nothing |
| `Transport.PrefixKeepsFirst` | src/scheduler.cpp:255-283 | a non-empty prefix that still parses has the original first field |
| `Transport.SocketReceipt` | src/scheduler.cpp:255-283 | whatever is parsed from a non-empty read of any length has the submitted id and is part of the submitted task, and is that task if and only if the read was whole and the strings UTF-8 |
| `Transport.SocketExact` | src/scheduler.cpp:255-283 | some read gives the submitted task if and only if it sets a field, is UTF-8 and fits 4096 bytes |
| `LongTask.LosesParameters` | src/scheduler.cpp:255-283 | a read that ends where the metadata begins gives the task without it |
| `LongTask.LongTaskCut` | src/scheduler.cpp:255-283 | a 4104-byte command that the full 4096-byte read turns into the command without its parameters |
| `LongTask.RunsWithoutParameters` | src/worker.cpp:345-463 | a run in which that command is executed so |
| `Transport.NeverNoResult` | src/redis_client.cpp:95-118 | no stored result reads as the reply for an absent one |
| `Transport.RedisStore.SetTaskResult` | src/redis_client.cpp:63-93 | key and value are cut to C strings; success needs both replies; a failed write changes nothing |
| `Transport.RedisStore.GetTaskResult` | src/redis_client.cpp:95-118 | the stored bytes, or the absence reply when there are none or the query is not answered properly |
| `Transport.RedisStore.DeleteTaskResult` | src/redis_client.cpp:120-127 | success is the reply's; afterwards no id with the same C string finds anything and every other id finds what it found before |
| `Ring.RingMeans` | src/load_balancer.cpp:531-540 | the insertion loops build exactly the points some worker owns, the last listed worker having a shared point |
| `Ring.DecimalReads` | src/load_balancer.cpp:534-537 | the number in a virtual node's name reads back as that number, without leading zeros |
| `Ring.VirtualNodesDiffer` | src/load_balancer.cpp:534-537 | different virtual nodes are hashed from different texts: of one worker always, of two if their ids have no number sign |
| `Ring.AllNodesStand` | src/load_balancer.cpp:531-540 | all hundred and fifty virtual nodes of every listed worker stand on the ring, at thirty-two bits of their hash |
| `Ring.LookupIsNearest` | src/load_balancer.cpp:371-380 | lower_bound with wrap answers the point of least clockwise distance, and only that |
| `Ring.DistanceIsModular` | src/load_balancer.cpp:371-380 | clockwise distance is subtraction modulo 2^32 |
| `Ring.OwnerIsNearest` | src/load_balancer.cpp:365-381 | a task's owner is a listed worker holding the nearest point of the ring |
| `Ring.Stability` | src/load_balancer.cpp:527-541 | when workers leave, a task whose owner stays keeps it, even where virtual nodes collide |
| `Ring.GrowthMovesOnlyToNew` | src/load_balancer.cpp:527-541 | adding workers moves tasks only to the added ones |
| `RoundRobin.SelectWeighted` | src/load_balancer.cpp:327-350 | neither fallback is reached; the pick is the entry whose slot holds the counter modulo the total |
| `RoundRobin.SlotUnique` | src/load_balancer.cpp:327-350 | a value falls in one slot only |
| `RoundRobin.WeightedExact` | src/load_balancer.cpp:327-350 | total-weight consecutive counter values from any start fall in each worker's slot exactly its weight many times |
| `RoundRobin.SelectTurn` | src/load_balancer.cpp:327-350 | total-weight consecutive calls from any counter pick each worker exactly its weight many times |
| `RoundRobin.SelectMany` | src/load_balancer.cpp:327-350 | the picks of any number of consecutive calls are those of the counter values they pass |
| `Balancer.Weight` | src/load_balancer.cpp:482-490 | weights are at least one |
| `Balancer.WeightBounds` | src/load_balancer.cpp:482-490 | for non-negative loads a weight is between one and ten, and ten is reached when idle |
| `Balancer.WeightMeans` | src/load_balancer.cpp:482-490 | a weight is one for every full thirty percent of free processor, free memory and network speed together, and at least one |
| `Balancer.HealthScore` | src/load_balancer.cpp:493-518 | scores lie between zero and one |
| `Balancer.ScoreMeans` | src/load_balancer.cpp:493-518 | the score loses a tenth for each mark passed: 70, 80, 90 by processor and by memory, 80, 90 by disk, and two or three for failures, down to zero |
| `Balancer.ScoreFalls` | src/load_balancer.cpp:493-518 | more load or more failures never raise the score |
| `Balancer.CheckMeans` | src/load_balancer.cpp:223-248 | a check turns a worker off if and only if it was silent for more than thirty seconds or has passed more than seven marks, and changes nothing else |
| `Balancer.UpdateMeans` | src/load_balancer.cpp:413-467 | a heartbeat reaches the worker with its id alone, new ones at the end; each figure is the one read or the one before, up to an unreadable capability, after which figures and weight stay |
| `Balancer.ListingHeard` | src/load_balancer.cpp:193-206 | after a listing whose heartbeats all read, every listed worker stands as its last heartbeat says |
| `Balancer.KeepActiveMeans` | src/load_balancer.cpp:470-479 | erasing keeps exactly the listed workers, unchanged and in order |
| `Balancer.HealthyMeans` | src/load_balancer.cpp:276-282 | the healthy list has the id of every healthy worker and no other |
| `Balancer.StepKeeps` | src/load_balancer.cpp:187-248 | discovery, health check and selection keep ids unique, weights positive, and the healthy workers among those of the last rebuild |
| `Balancer.LookupAnswersMember` | src/load_balancer.cpp:273-304 | over every run whose heartbeats all read, a reached lookup has a non-empty ring and answers a current member healthy at the last rebuild |
| `Balancer.LookupFailsExactly` | src/load_balancer.cpp:365-381 | over every run at all, a reached lookup meets an empty ring if and only if somebody is healthy now and nobody was after the last round whose heartbeats all read, and then some later round threw; otherwise the answer is a current member healthy at that time |
| `Balancer.RebuiltFrom` | src/load_balancer.cpp:187-220 | the ring is always that of the workers healthy after the last round whose heartbeats all read |
| `Balancer.ThrowingRoundBreaksLookup` | src/load_balancer.cpp:187-220 | one unreadable capability lets the lookup meet an empty ring |
| `Balancer.RebuildStability` | src/load_balancer.cpp:527-541 | between rebuilds with workers only leaving, lookups with a surviving owner agree |
| `LoadBalancer.LowerBoundWrap` | src/load_balancer.cpp:371-380 | finds the point lower_bound with wrap answers |
| `LoadBalancer.LoadBalancer.UpdateWorkerNode` | src/load_balancer.cpp:413-467 | updates the worker with the heartbeat's id or appends one; on an exception keeps the fields already assigned |
| `LoadBalancer.LoadBalancer.RemoveInactiveWorkers` | src/load_balancer.cpp:470-479 | keeps the listed workers in order |
| `LoadBalancer.LoadBalancer.UpdateConsistentHashRing` | src/load_balancer.cpp:527-541 | the ring is that of the healthy workers in list order |
| `LoadBalancer.LoadBalancer.DiscoveryRound` | src/load_balancer.cpp:187-220 | is the discovery step; keeps what SelectWorker needs even when a heartbeat throws, and the whole invariant when all read |
| `LoadBalancer.LoadBalancer.HealthCheckRound` | src/load_balancer.cpp:223-248 | is the health step and keeps the invariant; a worker is turned off exactly by silence or by more than seven marks, and nothing else changes |
| `LoadBalancer.LoadBalancer.SelectWorker` | src/load_balancer.cpp:273-304 | after any rounds, thrown ones included: nobody exactly when none is healthy; else by turn, by weight slot, or, given a ring, its owner, a current member |
| `LoadBalancer.RingReady` | src/load_balancer.cpp:365-381 | unless a round threw there is a ring whenever somebody is healthy |
| `LogBuffer.GrowthBounds` | log_system/AsyncBuffer.hpp:84-109 | growth ends at or above the need and overshoots by less than max(min(need, threshold), linear step) |
| `LogBuffer.DoublingGrowth` | log_system/AsyncBuffer.hpp:84-109 | below the threshold the capacity doubles, as often as needed and only while below it |
| `LogBuffer.LinearGrowth` | log_system/AsyncBuffer.hpp:84-109 | from the threshold on it grows by the linear step, as often as needed and no more |
| `LogBuffer.DoublingAmortized` | log_system/AsyncBuffer.hpp:84-109 | while reallocations start below the threshold, all bytes ever relocated are fewer than the final capacity |
| `LogBuffer.Buffer.constructor` | log_system/AsyncBuffer.hpp:14-17 | an empty buffer of the configured size |
| `LogBuffer.Buffer.TobeEnough` | log_system/AsyncBuffer.hpp:84-109 | the growth loop reaches the specified capacity and keeps every byte |
| `LogBuffer.Buffer.WriteableSize` | log_system/AsyncBuffer.hpp:47-50 | the capacity left behind the write position |
| `LogBuffer.Buffer.Push` | log_system/AsyncBuffer.hpp:19-33 | appends exactly the given bytes to the readable contents |
| `LogBuffer.Buffer.Swap` | log_system/AsyncBuffer.hpp:40-45 | exchanges contents, positions and capacity |
| `LogBuffer.Buffer.Clear` | log_system/AsyncBuffer.hpp:58-64 | nothing readable, capacity kept |
| `LogWorker.StepKeeps` | log_system/AsyncWorker.hpp:39-89 | every step of producers and consumer keeps the conservation invariant |
| `LogWorker.StreamConserved` | log_system/AsyncWorker.hpp:39-89 | flushed, consumer and producer bytes in a row are the accepted messages in lock order; callbacks get whole messages |
| `LogWorker.AcceptedMeans` | log_system/AsyncWorker.hpp:39-61 | in every run exactly the pushes before the first stop are accepted, in order |
| `LogWorker.TurnFlushes` | log_system/AsyncWorker.hpp:65-89 | one turn of the consumer hands over everything that was waiting |
| `LogWorker.ExitFlushesAll` | log_system/AsyncWorker.hpp:65-89 | when the consumer has exited, everything accepted then or ever has been flushed |
| `LogWorker.BoundedNeverReallocates` | log_system/AsyncWorker.hpp:47-58 | in bounded mode neither buffer reallocates over any run |
| `AsyncWorker.AsyncWorker.RoomFor` | log_system/AsyncWorker.hpp:50-51 | what a bounded push waits for is that the message fits |
| `AsyncWorker.AsyncWorker.Push` | log_system/AsyncWorker.hpp:39-61 | is the push step on the real buffers |
| `AsyncWorker.AsyncWorker.Stop` | log_system/AsyncWorker.hpp:32-37 | is the stop step |
| `AsyncWorker.AsyncWorker.TakeBatch` | log_system/AsyncWorker.hpp:68-81 | is the swap step |
| `AsyncWorker.AsyncWorker.DeliverBatch` | log_system/AsyncWorker.hpp:82 | hands the callback the consumer's readable bytes |
| `AsyncWorker.AsyncWorker.RewindBatch` | log_system/AsyncWorker.hpp:83 | is the reset step |
| `AsyncWorker.AsyncWorker.TestExit` | log_system/AsyncWorker.hpp:84-87 | exits exactly when stop is set and the producer buffer is empty, and then the callback has been given all accepted messages |
| `Pipeline.StepKeeps` | src/worker.cpp:385-459 | every step from submission to stored result keeps the provenance invariant |
| `Pipeline.RunGivesGood` | src/worker.cpp:385-459 | running a submitted task tells what it gave: SUCCESS exactly for a command that printed something or a function that says so, with that text as output; otherwise FAILED with the given, fixed or exception text; under its id, worker and stamps, in order |
| `Pipeline.Provenance` | src/client.cpp:194-251 | a stored result comes from running the task submitted under that id up to its first NUL, each field the submitted one or unset and the metadata part of the submitted, all of it whenever the submission was read whole, whatever is redelivered; it tells what that run gave; stamps of commands and functions are ordered |
| `Pipeline.ProvenanceExact` | src/client.cpp:205-224 | the result under an id is that id's own if and only if the id has no NUL |
| `Stamps.ResultStamps` | src/scheduler.cpp:273-283 | the stamps of a stored result are moments at which a submission with its id was read, published and delivered, and for commands and functions run |
| `Awaiting.NothingForgotten` | src/client.cpp:149-251 | over every run the submitted ids are those queued, awaited or answered, each in one place only |
| `Awaiting.WithoutMeans` | src/client.cpp:241-246 | taking an answered id off the list takes off that id alone |
| `FailureTexts.OutcomeTravels` | src/worker.cpp:398-444 | a result travels whenever its id, worker and given text are clean: none of the fixed failure texts stops it |
| `FailureTexts.SilentCommandTravels` | src/worker.cpp:403-407 | so the failure of a command that printed nothing reaches the client |
| `Pipeline.CutMeans` | src/scheduler.cpp:255-283 | a submission counts as not read whole if and only if some read of the run returned less than was sent |
| `Pipeline.DeafMeans` | include/message_queue.h:234-239 | in every run a consume loop has ended if and only if it was handed a task, or a result, that does not travel |
| `Pipeline.LoopEnds` | src/worker.cpp:197-230 | after that its worker receives nothing more, or its scheduler stores nothing more |
| `EndedLoop.CutIdRejected` | include/message_queue.h:234-239 | a command with a NUL in its id is rejected by the worker's parse |
| `EndedLoop.WorkerGoesDeaf` | src/worker.cpp:197-230 | a run in which that command ends the worker's loop |
| `EndedLoop.BinaryRejected` | include/message_queue.h:674-679 | a result with the output byte 0xFF is rejected by the scheduler's parse |
| `EndedLoop.SchedulerGoesDeaf` | src/scheduler.cpp:335-352 | a run in which that result ends the scheduler's loop |
| `NulId.NulIdTakesForeignResult` | src/redis_client.cpp:95-118 | a complete run in which an id with a NUL takes another task's result |
| `SchedulerTable.TableMeans` | src/client.cpp:258-334 | at any time the table holds the schedulers of the open and the last closed round, those of the open one marked |
| `SchedulerTable.EntryIsLastListed` | src/client.cpp:304-308 | an entry holds the address of the last listing of its id, through any number of sweeps |
| `SchedulerTable.SweepLeavesRound` | src/client.cpp:258-334 | after a sweep the keys are exactly the ids refreshed in that round, all unmarked |
| `SchedulerTable.VanishedStaysOut` | src/client.cpp:258-334 | a scheduler missing from a round is in no later table until listed again |
| `SchedulerTable.EachVisitedOnce` | src/client.cpp:482-499 | n index steps reach each position exactly once from any index, even one beyond a table that shrank |
| `SchedulerTable.TurnVisitsEach` | src/client.cpp:482-499 | n consecutive stops are the walk order rotated, so each entry once |
| `SchedulerTable.Client.RefreshScheduler` | src/client.cpp:258-334 | writes and marks one entry |
| `SchedulerTable.Client.SweepTable` | src/client.cpp:258-334 | erases the unmarked and unmarks the rest, in any walk order |
| `SchedulerTable.Client.RoundRobinPick` | src/client.cpp:482-499 | an error exactly on an empty table, else the entry at the advanced index, in range, with the address last listed for it |
| `SchedulerTable.Client.PickUsable` | src/client.cpp:168-174 | picking again while the ip is empty answers the first entry of the walk that has one |
| `SchedulerTable.RetryEndsExactly` | src/client.cpp:168-174 | that comes to an end if and only if some entry has an ip |
| `SchedulerTable.BlankEntryNeverEnds` | src/client.cpp:266-308 | the entry of a heartbeat without fields, alone in the table, has no end of picking |
| `SchedulerTable.Client.PickForEach` | src/client.cpp:149-190 | the submit loop's consecutive picks all have an ip, and on an unchanged table whose entries all have one they answer exactly those stops |

## Left out

- The pool, the log protocol and the pipeline are step machines over values: a step stands for one access or one critical section, and the C++ memory model below that is not modelled.
- The pool's `threads_` container and thread ids, and restarting a stopped pool.
- Exceptions thrown by a pool task: the pipeline models those `exec_task` catches.
- Unknown protobuf fields, groups, arenas, descriptors, reflection, and the library's own limits on nesting and total size.
- The inner loop of the generated parser that reads consecutive map entries without returning to the switch: the model returns to the switch each time.
- ByteSizeLong and MergeImpl of TaskResult and the heartbeats are covered by the table-driven forms and not written out again as methods.
- Broker acknowledgements, reconnection, connection set-up, `/proc` and `popen` reading, `dlopen`.
- Liveness of stopping the worker, the client and the log consumer: they notify without holding the mutex.
- Random and single-metric selection, statistics, configuration, log formatting, files and the backup server: easy members or input and output.
- The second, simpler pool of the log system: its draining is a special case of the one here.
- Nodes of the load balancer are identified by id; sharing of node objects between callers is not modelled.
- Balancer.ScoreMeans: over real numbers; with doubles a score of exactly three tenths may round below the mark.
- Wrap-around of counters and IEEE rounding elsewhere.
- The command line built from a task's content and parameters, and the JSON a function answers: the outcome of a run is a parameter.
- Capability texts in the client's scheduler listing, which only the load-based strategies use.

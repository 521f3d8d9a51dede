# ccKVS in Dafny

ccKVS keeps the hottest keys of a key-value store cached on every machine and keeps the copies consistent with two
protocols. This project models the parts of it that are hard to get right and proves what they promise:

- **LIN**, the linearizable protocol: five states for each copy, invalidations, acks and updates over a network that
  may reorder and lose messages (`Clock`, `Lin`, `LinSystem`, `LinSafety`, `LinRegister`, `LinDrain`, `LinRivals`,
  `LinAnswers`, `LinValues`, `LinBuffer`).
- **LIN over OPTIK**: every machine's line in memory and the messages between them, one memory access at a time
  (`Paths`, `LinCluster`, `LinSamples`).
- **SC**, the sequentially consistent protocol: Lamport clocks and one update broadcast for each write (`Sc`,
  `ScSystem`, `ScBatch`, `ScOrder`, `ScFrame`).
- **OPTIK**, the seqlock under both, one memory access at a time (`Seqlock`, `SeqlockSamples`, `SeqlockReader`).
- **Flow control** of LIN: three virtual channels between every two machines, credits returned in batches, receives
  posted ahead of the traffic (`Credits`, `CreditSystem`, `CreditRound`, `CreditHistory`, `CreditBounds`,
  `CreditProgress`).
- **The client's batch**: coalescing of hot reads, the split of a batch into hits, remote requests and carried-over
  requests, and the requests in transit (`Coalesce`, `ColdBatch`, `Client`, `Requests`).
- **The wire**: packing, parsing and the scatter of responses (`Wire`).
- **Two hash tables**: MICA, a lossy table over a log of records (`MicaLog`, `MicaRoom`, `Mica`), and pmica, a chained
  table in persistent memory with a redo log (`PmicaTable`, `PmicaRoom`, `Pmica`, `RedoLog`, `Recovery`, `PmicaStore`).

Code that changes state step by step is a class or a method with loops, proved equal to a function on values; the
lemmas are about that function, or about all runs of a state machine built from it.

## How the model reads the program

- LIN and SC are modelled for one key and any number of machines. Messages in flight are a multiset. A LIN message is
  delivered at most once, because acks are counted and not told apart by sender; SC updates may be delivered any number
  of times.
- In a LIN copy that is being written, `cid` holds a session id, so the copy's timestamp there is its version with the
  machine's own id.
- Versions, sequence numbers and log offsets are unbounded integers. One-byte counts are checked where the program
  checks them.
- A GET hands out a pointer to the record, in the cache and in MICA alike; the model returns the record as it is at that
  moment, not as a later write may leave it before the pointer is followed.
- The network, the responses of the other side and the timing of both are steps of the model or parameters. Nothing is
  assumed about their order unless a lemma says so.
- The index of a bucket is the hash modulo the number of buckets, which is what masking gives for a power of two. The
  hash itself is an arbitrary function.
- The configuration is the one in the headers: locals disabled, no coalescing of remote reads, workers batching, one
  worker for each client on every machine, assertions enabled. An assertion the program makes is either proved, or an
  outcome of the model.

## Where the program does not do what is written or expected

- **LIN values.** The update that follows a last ack is sent from the buffer the ack arrived in, and an ack does not
  carry a value. The bytes sent are those of the last update, of whatever key, that an earlier round copied to the same
  position (`LinBuffer.LastAckSendsLeftover`). Replicas get the written value if and only if those bytes happen to
  equal it (`LinValues.LastAckFaithfulIff`), and can differ for good otherwise (`LinValues.ReplicasCanDiffer`). The LIN
  theorems are therefore about clocks.
- **Seqlock samples.** Two samples of (version, cid) that agree and are even rule out a store under SC. Under LIN they
  do so exactly when the first sample shows a readable copy, or a write whose session id is at most the machine's id or
  no machine's id at all (`LinSamples.SamplesSufficeIff`): an update leaves the clock it found, and an invalidation may
  carry, as its machine id, the session id a write left in the cid. A LIN GET also looks at the state between its
  samples, and that is always enough: it sees one value from then on and is an atomic GET at that moment
  (`LinCluster.LockFreeGetLinearizable`). Loading cid and version apart breaks the comparison under SC too
  (`SeqlockSamples.SplitSampleMissesStore`).
- **SC frames.** Updates are packed at their length on the wire and read back at the size of a structure. A frame
  arrives as it was sent if and only if it holds at most one update (`ScFrame.ArrivesIff`). In every longer frame the
  opcode read for the second update is a byte of its value (`ScFrame.SecondOpcode`).
- **pmica commit rule.** A redo-log entry is documented as committed if and only if its number is at most the committed
  number. With redo-log batching the committed number is written one past the last entry, so the first entry of the
  next batch counts as committed before it is persistent. `RedoLog.CommittedDurableIff` says exactly when the rule
  holds.
- **Cache buffers of a client.** The assertion that a cache buffer is free before a broadcast is not an invariant, since
  a round waits for replies only if the round before it sent data. `Client.CacheBuffersFreeIff` gives the condition.
- **MICA slots.** A comment says used slots are at the beginning of a bucket. The insert loop takes the last suitable
  slot, so they are at the end; `MicaLog.SlotForKeepsBucket` is about what the code does.

## Model

| member | source | states |
|---|---|---|
| Lin.CacheLine.Get | src/ccKVS/cache.c:595-639 | a GET on a line nobody else touches meanwhile is the GET transition of the five-state machine |
| Lin.CacheLine.Put | src/ccKVS/cache.c:640-692 | the in-place PUT is the PUT transition, in every state and for both outcomes of the session test |
| Lin.CacheLine.Invalidate | src/ccKVS/cache.c:710-756 | the in-place INV is the INV transition, comparing clocks under the odd version |
| Lin.CacheLine.Acknowledge | src/ccKVS/cache.c:758-782 | the in-place ACK is the ACK transition; the last one validates the line under the machine's own cid |
| Lin.CacheLine.Update | src/ccKVS/cache.c:694-708 | the in-place UPD is the UPD transition, taken only at the same clock in an invalid state |
| LinSystem.InvsOf | include/ccKVS/inline_util.h:1330-1430 | a broadcast puts exactly one invalidation in flight to every other machine |
| LinSystem.UpdsOf | include/ccKVS/inline_util.h:1259-1290 | a last ack puts exactly one update in flight to every other machine |
| LinSafety.StepSafe | src/ccKVS/cache.c:595-782 | every step, loss and reordering included, keeps the whole protocol invariant: clocks, writers, messages, ack tokens |
| LinSafety.LastAckHeardFromAll | src/ccKVS/cache.c:764-775 | when a last ack is counted, every other machine has answered and its clock is at least the write's |
| LinSafety.NotYetIssued | src/ccKVS/cache.c:640-692 | the clock a PUT takes has never been issued and no message carries it |
| LinRegister.ValidCopiesAgree | src/ccKVS/cache.c:595-782 | in every reachable state, two machines whose copy is VALID hold the same version and cid |
| LinRegister.PendingAcksExact | src/ccKVS/cache.c:764-775 | in every reachable state, pending_acks is the number of other machines whose ack was not counted, and every counted machine is at least at the write's clock |
| LinRegister.RunAtomic | src/ccKVS/cache.c:598-777 | every run is a run of one atomic register: writes take effect at their last ack and reads return the register |
| LinRegister.AtomicRealTime | src/ccKVS/cache.c:598-638 | in such a run, a read sees at least every write completed before it |
| LinRegister.Linearizable | src/ccKVS/cache.c:598-638 | after a write's last ack, every later successful GET on any machine sees a clock at least as large |
| LinRegister.ReadsNeverGoBack | src/ccKVS/cache.c:764-777 | successive successful GETs anywhere never go backwards |
| LinDrain.StepLive | src/ccKVS/cache.c:694-782 | without loss, every step keeps the promise that each invalid copy will be updated and each write acked |
| LinDrain.QuiescentConverges | src/ccKVS/cache.c:890-930 | without loss, once nothing is in flight every copy is VALID at the largest clock ever issued |
| LinDrain.DeliveryShrinks | src/ccKVS/cache.c:890-930 | every delivery makes the messages in flight fewer, in the order invalidations, acks, updates |
| LinDrain.EveryScheduleConverges | src/ccKVS/cache.c:890-930 | whichever message is delivered next, delivering always ends, in a converged state |
| LinAnswers.FailedIffOvertaken | src/ccKVS/cache.c:640-682 | in every safe state a PUT fails, and is dropped, if and only if its machine is writing for a larger session, above every completed write; a PUT that does not succeed changes nothing |
| LinAnswers.StalledPutSucceeds | src/ccKVS/cache.c:664-676 | a PUT stalls only on a replay state, and made again after the messages under way are delivered, in any order, it begins a write above all others |
| LinAnswers.StalledGetSucceeds | src/ccKVS/cache.c:606-632 | a stalled GET made again then reads the largest write |
| LinAnswers.AckAnswers | src/ccKVS/cache.c:758-782 | in every safe state an ack completes the write under way, takes one off its count, or is refused and changes nothing, exactly by whether it is the last, another or not for that write |
| LinAnswers.InvAnswers | src/ccKVS/cache.c:710-756 | an invalidation succeeds exactly when it is above the copy, which is then at its clock and unreadable; a stalled GET stays announced |
| LinRivals.StepAlone | src/ccKVS/cache.c:710-782 | no step lets a machine that acked a write have written above it at its version, nor anyone above a completed write |
| LinRivals.ReadableNeedsLargerVersion | src/ccKVS/cache.c:710-722 | in every reachable state, an invalidation that a readable copy would accept has a larger version |
| LinValues.LastAckFaithfulIff | include/ccKVS/inline_util.h:1279-1285 | completing a write keeps copies and updates true to the written values if and only if the receive buffer already held the value |
| LinValues.RunFaithful | include/ccKVS/inline_util.h:1185-1186 | if every last ack finds its value in the buffer, every readable copy holds the value of the last completed write |
| LinValues.BufferReachesReplica | include/ccKVS/inline_util.h:1259-1290 | from any start, a write acked into a buffer with other bytes leaves those bytes in the replica |
| LinValues.ReplicasCanDiffer | include/ccKVS/inline_util.h:1185-1186 | a run after which two VALID copies with equal clocks hold different values |
| LinBuffer.SlotHolds | include/ccKVS/inline_util.h:1183-1186 | a slot of the receive buffer holds the value of the last update copied to its position, or what was there at first |
| LinBuffer.LastAckSendsLeftover | include/ccKVS/inline_util.h:1279-1285 | a last ack at a position sends that leftover value, and copies stay true to the write if and only if it is the written one |
| LinBuffer.CopyBatch | include/ccKVS/inline_util.h:1183-1186 | the copy loop overwrites the values at the positions of updates only |
| Sc.ServeBatch | src/ccKVS/cache.c:331-390 | the batch loop over the cache in place is the operations one after the other |
| Sc.ServeSnoc | src/ccKVS/cache.c:331-390 | serving one more operation is serving it on the cache the others left |
| ScBatch.OneStep | src/ccKVS/cache.c:341-375 | one operation on a cached key is one step of the whole system: a GET answers what the copy holds, a PUT a clock never issued before, and an update succeeds exactly when it is above the copy |
| ScBatch.BatchIsRun | src/ccKVS/cache.c:331-390 | for every cached key, the operations of a batch on it are a run of the whole system on this machine, and the answers are the events of that run, in order; no other copy changes |
| ScBatch.OthersAlone | src/ccKVS/cache.c:331-390 | an operation leaves all other keys alone, and misses exactly if its key is not cached |
| ScSystem.StepSafe | src/ccKVS/cache.c:351-375 | no write reuses a clock, no copy goes back, and copies hold the value issued at their clock |
| ScSystem.DeliveredReaches | src/ccKVS/cache.c:473-483 | once delivered, an update's clock is never above the copy's again |
| ScSystem.CopiesConverge | src/ccKVS/cache.c:351-375 | any order of delivery, with repeats, of all updates leaves every copy at the same largest write |
| ScOrder.SequentiallyConsistent | src/ccKVS/cache.c:341-375 | for every run there is one order of all GETs and PUTs, each once, that extends every machine's own order and in which each GET returns the latest earlier PUT |
| ScOrder.HistoryCoherent | src/ccKVS/cache.c:341-375 | every machine's events move forward in clock order, and whatever is read was written before |
| ScFrame.ArrivesIff | src/ccKVS/client-sc.c:96-106 | frames of n updates as they are packed are read back, for every content and buffer, if and only if n is at most one |
| ScFrame.SecondOpcode | src/ccKVS/client-sc.c:28-41 | in every frame of two updates or more, the opcode read for the second is a byte of its value, and unless that byte is CACHE_OP_UPD the frame is misread |
| Seqlock.StepExclusive | include/optik/optik_mod.h:200-307 | every memory access of every section of both protocols keeps mutual exclusion and the parity of the version, and clock and state change only together, by a section the protocol allows |
| Seqlock.SectionsAreTransitions | src/ccKVS/cache.c:595-782 | the LIN sections allowed on a line are exactly the protocol's transitions that succeed there, with the clock and the state they leave; for the last ack, those that succeed when one ack is outstanding, since a memory has no pending_acks |
| Seqlock.SectionGrows | include/optik/optik_mod.h:281-307 | no section takes the version back, a put moves it on, and under SC no section takes the clock back |
| Seqlock.EvenIsBase | include/optik/optik_mod.h:234-238 | at an even version the word is the line's clock and nobody is between the version bump and the version store |
| Seqlock.StoredUnreadable | src/ccKVS/cache.c:648-705 | under LIN a line never shows VALID while a byte of its value changes |
| SeqlockSamples.EqualVersionsHideOnlyUpdates | src/ccKVS/cache.c:343-348 | whatever the protocol, equal even versions hide only bytes of an update that found the line at that version and left it there |
| SeqlockSamples.AgreeingSamplesSeeOneValue | src/ccKVS/cache.c:343-348 | under SC, with any number of writers, if two samples agree and are even then no value byte was stored between them |
| SeqlockSamples.HiddenIffUpdated | src/ccKVS/cache.c:698-704 | under LIN, agreeing even samples hide a store if and only if an update at the line's own version made it, in every run |
| SeqlockSamples.SteadySamplesSeeOneValue | src/ccKVS/cache.c:694-777 | the positive half, from any even state |
| SeqlockSamples.SplitSampleMissesStore | include/optik/optik_mod.h:234-238 | under SC, a sample loaded as two words can miss a newer update of the same version |
| LinCluster.NeverBlocked | src/ccKVS/cache.c:595-782 | a thread that holds a line's lock can carry out every operation the protocol allows there, with a section that is legal in memory |
| LinCluster.StepLinked | src/ccKVS/cache.c:595-782 | every memory access, operation and loss keeps each machine's memory in step with the protocol: exclusive, standing for its copy, and invalidated while readable by larger versions only |
| LinCluster.PathRefines | src/ccKVS/cache.c:595-782 | every run of accesses is a run of the protocol in which each operation is one atomic step |
| LinCluster.PathProjects | src/ccKVS/cache.c:710-722 | what one machine's memory sees of any run is a run of the lock in which readable lines are invalidated by larger versions only |
| LinCluster.LockFreeGetLinearizable | src/ccKVS/cache.c:598-638 | in every run from the initial state, a GET that samples an even version, finds VALID and finds the version again sees no byte stored after it looked at the state, and is an atomic GET at that moment: it returns the version it sampled, which is that of the write completed last |
| LinSamples.Perform | src/ccKVS/cache.c:595-782 | from a state at rest, one thread can carry out any operation of the protocol access by access, and an update that is accepted stores a byte |
| LinSamples.SamplesSufficeIff | src/ccKVS/cache.c:694-777 | for every even sample a run of the whole system can show: samples that agree with it rule out a store in every run if and only if it shows VALID, or a write with session id at most the machine id or at least MACHINE_NUM |
| LinSamples.SteadyNeverDeceives | src/ccKVS/cache.c:694-777 | the positive half, from any reachable state |
| LinSamples.UnsteadySamplesHideStore | include/ccKVS/inline_util.h:1341 | the negative half: for every invalid sample, and every write sample with a larger machine's id as session id, a run of the whole system from its initial state that shows it and stores a byte unseen |
| Credits.Decode | include/ccKVS/inline_util.h:216-231 | decoding the immediate data of a credit message gives back its channel and machine |
| Credits.ForgeForMachine | include/ccKVS/inline_util.h:1502-1544 | for one machine: a credit message for every full group of a channel, in channel order, and the remainders in the counters |
| Credits.ForgeCredits | include/ccKVS/inline_util.h:1488-1549 | the same for all machines |
| CreditRound.BelowTells | include/ccKVS/inline_util.h:1512-1526 | of a round's messages, exactly as many go to a machine and name a channel as there were full groups of slots freed for it, and none names another machine |
| CreditRound.RoundForges | include/ccKVS/inline_util.h:1488-1549 | for every channel that ends at the machine, the messages that tell its sender are exactly the credits the system's step puts in flight, and there are no others |
| CreditRound.MessageWelcome | include/ccKVS/inline_util.h:216-231 | whoever gets a message of the round can take it as credits of its own channel to the machine that forged it |
| CreditSystem.StepConserved | include/ccKVS/inline_util.h:1488-1549 | every step keeps every channel's credits in exactly one place each |
| CreditSystem.StepCounted | include/ccKVS/inline_util.h:1418-1483 | the broadcast counter, the ack counter and the receives posted stand for what was sent |
| CreditHistory.HeldForAnswers | include/ccKVS/inline_util.h:1259-1326 | in every run from a state in which nothing was sent on a channel, such as the initial one, the slots held are the invalidations that succeeded and are not acked, and the last acks whose updates are not sent; sends, receives and credits are those of the run |
| CreditHistory.UntouchedAtFirst | include/ccKVS/main.h:215-226 | the initial state is safe and such a state for every channel |
| CreditBounds.CreditsConserved | include/ccKVS/main.h:215-226 | in every run: credits, messages in flight, held, freed and seen, and credits in flight add up to CREDITS_FOR_EACH_CLIENT |
| CreditBounds.CreditReceivesSuffice | include/ccKVS/inline_util.h:1418-1483 | the credit messages ever sent to a machine never exceed the receives it posted for them, though both are counted differently |
| CreditBounds.CoherenceReceivesSuffice | include/ccKVS/inline_util.h:650-676 | the messages ever sent to a machine never exceed its initial receives plus those posted with each credit message |
| CreditBounds.HoldingFits | include/ccKVS/inline_util.h:1183-1206 | what waits in a receiver's buffers never fills them |
| CreditBounds.DrainedHasCredits | include/ccKVS/main.h:225-226 | when only new writes are left to do, every channel has more than a credit message's worth of credits |
| CreditProgress.DrainLighter | include/ccKVS/inline_util.h:1259-1549 | every step but a new write's broadcast lowers a weight of the whole system |
| CreditProgress.CreditsComeBack | include/ccKVS/inline_util.h:1259-1549 | from any reachable state, every schedule of the work under way is finite and ends with credits on every channel |
| Coalesce.SameMeaning | src/ccKVS/cache.c:1157-1217 | each trace command, through the entry it was folded into, is answered from the cache the commands before it leave, and the cache ends up as all of them leave it |
| Coalesce.CacheHolds | src/ccKVS/cache.c:1188-1217 | that cache holds at a key the value of the last write to it, under a larger clock, or what was there |
| Coalesce.FoldedIff | src/ccKVS/cache.c:1159-1187 | a command takes no slot exactly if it reads one of the hottest keys and that key was read before without a write since |
| Coalesce.OverflowsIff | src/ccKVS/cache.c:1175 | the one-byte count overflows exactly at the 257th such read in a row |
| Coalesce.CountsExact | src/ccKVS/cache.c:1177-1193 | every read entry counts exactly the commands it serves, and every write entry serves one |
| Coalesce.ConsumedAt | src/ccKVS/cache.c:1178-1217 | command t of a refill is the trace's at start + t, modulo its length |
| Coalesce.SharesAreCommands | src/ccKVS/cache.c:1157-1217 | the counts of the entries add up to the commands consumed |
| Coalesce.HitsAreCommands | include/ccKVS/inline_util.h:295-301 | when every key is cached, the hits counted are the commands consumed |
| Coalesce.TakeOne | src/ccKVS/cache.c:1159-1213 | one command in place: a new slot, a higher count or an overflow, with the pointer table kept |
| Coalesce.BatchFromTrace | src/ccKVS/cache.c:1140-1217 | the refill loop stores what taking the next commands one by one gives, terminates, and leaves carried-over slots alone |
| ColdBatch.HandleColdRequests | include/ccKVS/inline_util.h:795-931 | the loops place every slot of the batch as placing them one by one does |
| ColdBatch.HitBookkeeping | include/ccKVS/inline_util.h:277-305 | hits up to the next cold request are retired or carried |
| ColdBatch.RunThroughRest | include/ccKVS/inline_util.h:308-333 | once nothing more can be sent, hits are retired and the rest carried |
| ColdBatch.IssueRemote | include/ccKVS/inline_util.h:713-758 | a cold request joins its machine's queue, or is skipped when that is full |
| ColdBatch.Conservation | include/ccKVS/inline_util.h:277-333 | the retired, queued and carried lists are exactly the slots with that fate, in their original order |
| ColdBatch.AllAccountedFor | include/ccKVS/inline_util.h:795-931 | the fates account for every slot |
| ColdBatch.RoundSplits | include/ccKVS/inline_util.h:795-931 | with the configured window a machine's queue is the first KVS_BATCH cold requests for it, the retired are the hits and the carried the rest, all in order |
| ColdBatch.RoundRetires | include/ccKVS/inline_util.h:277-333 | whatever the window, exactly the hits are retired, in order, and no more is sent than the window |
| ColdBatch.CarriedWhy | include/ccKVS/inline_util.h:713-758 | a cold request is carried only if its queue is full, the window used up, or every queue's worth was sent |
| ColdBatch.NeverStuck | include/ccKVS/inline_util.h:722-729 | the test for all batches being full never holds, since a machine queues nothing for itself |
| ColdBatch.NeverFull | include/ccKVS/inline_util.h:807-917 | if the window exceeds all queues together, a round never stops early |
| ColdBatch.FirstComeFirstServed | include/ccKVS/inline_util.h:877-917 | a machine's queue takes the first KVS_BATCH requests for it and the others are carried |
| ColdBatch.SentOrCloser | include/ccKVS/inline_util.h:877-917 | a cold request is sent if and only if fewer than KVS_BATCH are ahead of it, and otherwise has KVS_BATCH fewer ahead next round |
| ColdBatch.NoStarvation | include/ccKVS/inline_util.h:807-917 | a cold request with k ahead of it is sent in round k / KVS_BATCH, so within six rounds |
| Client.GoesAheadIff | src/ccKVS/client-sc.c:471-534 | a round goes ahead exactly when no data reply is outstanding, nor a reply to a broadcast of a round that sent data too |
| Client.RoundOk | src/ccKVS/client-sc.c:471-534 | once a round may send, the data buffers are free, and the transit count stays exact |
| Client.CacheBuffersFreeIff | src/ccKVS/client-sc.c:89-137 | cache buffers are free for every timing of the replies if and only if data is sent between any two broadcasts |
| Client.TwoHotRounds | src/ccKVS/client-sc.c:113 | two rounds of hot writes alone can break the assertion |
| Client.ClientContext.SendRequests | src/ccKVS/client-sc.c:180-230 | the loop marks exactly the machines with queued requests, counts them and leaves every queue but its own empty |
| Client.ClientContext.ReceiveResponse | src/ccKVS/client-sc.c:142-172 | a reply frees its machine's buffer and counts down |
| Requests.StepSafe | src/ccKVS/client-sc.c:434-538 | every step keeps a data buffer in use exactly for one live request from that client to that machine |
| Requests.SentExactly | src/ccKVS/client-sc.c:180-230 | a round sends one request to every machine it queued for, with the operations queued, and none to others |
| Requests.RoundMarks | src/ccKVS/client-sc.c:89-230 | after a round, data buffers are in use exactly for the machines queued for, cache buffers for all others if it broadcast, and the count is their number |
| Requests.RequestFinishes | src/ccKVS/worker.c:247-267 | from every safe state a request under way can be collected and answered, which frees its buffer |
| Requests.DataBuffersAlwaysFree | src/ccKVS/client-sc.c:180-190 | in every run, a round finds the data buffers it needs free |
| Requests.AnswerWelcome | src/ccKVS/client-sc.c:142-155 | an answer always finds the buffer of its request in use and the transit count above zero |
| Requests.BatchQueuedOk | include/ccKVS/inline_util.h:877-905 | a round queues at most KVS_BATCH operations for a machine and none for its own |
| Requests.WorkerBound | src/ccKVS/worker.c:247-267 | in every run a worker collects at most MACHINE_NUM - 1 requests between drains, of at most KVS_BATCH operations each |
| Requests.WorkerArraysFit | src/ccKVS/worker.c:24-60 | with the configured sizes a worker's request table and operation array never overflow |
| Wire.ParsePack | src/ccKVS/worker.c:41-58 | parsing a packed frame returns the packed operations, for any list of puts and of shorter operations of any opcode |
| Wire.PackParse | src/ccKVS/client-sc.c:193-215 | a well-formed frame is the packing of what it parses to |
| Wire.PackFrame | src/ccKVS/client-sc.c:193-215 | the two loops over lengths and offsets fill the buffer with the packed operations |
| Wire.WorkerContext.ParseFrame | src/ccKVS/worker.c:41-58 | the parse loop appends the frame's operations to the batch and counts them for the request |
| Wire.WorkerContext.ReqHandler | src/ccKVS/worker.c:24-62 | a request joins the batch being collected behind the others |
| Wire.WorkerContext.DrainBatch | src/ccKVS/worker.c:83-105 | each request gets the responses of its own operations, in order |
| MicaLog.SlotForKeepsBucket | src/mica/mica.c:110-129 | the chosen slot keeps used slots a suffix with distinct tags, and is the tag's own slot if it has one |
| MicaLog.InsertOk | src/mica/mica.c:88-156 | an insert keeps every used slot at the current record of its key, and the inserted key can be found |
| MicaRoom.TakesItsOwn | src/mica/mica.c:113-123 | while the bucket has room the slot taken is unused or the tag's own, and otherwise it is slot tag modulo eight |
| MicaRoom.InsertCosts | src/mica/mica.c:110-129 | while the bucket has an unused slot or one with the tag, an insert changes no lookup of a key with another tag or bucket; otherwise exactly the key in slot tag modulo eight is lost |
| MicaRoom.SamePlaceLost | src/mica/mica.c:110-129 | another key with the same bucket and tag is lost |
| MicaRoom.InsertKeeps | src/mica/mica.c:110-129 | a bucket that has seen at most eight tags still leads somewhere for each of them |
| MicaRoom.KeptFinds | src/mica/mica.c:192-248 | in such a bucket every key whose tag is its own is found |
| MicaLog.UpdateOk | src/mica/mica.c:249-260 | an update in place changes its own record only, and keeps the invariant |
| MicaLog.FindIsLatest | src/mica/mica.c:202-248 | any lookup hit is the record most recently written for exactly that key |
| MicaLog.ResolvedInsert | src/mica/mica.c:192-288 | lookups resolved at the start of a batch survive the inserts of the batch |
| MicaLog.ResolvedUpdate | src/mica/mica.c:192-288 | and its updates in place |
| Mica.Kv.InsertOne | src/mica/mica.c:88-156 | the insert in place, with its slot loop, copy and alignment, is the insert on values |
| Mica.Kv.ResolveAll | src/mica/mica.c:192-227 | the first two loops find where each tag leads |
| Mica.Kv.BatchOp | src/mica/mica.c:164-289 | a get hits if and only if its key was there at the start of the batch, and returns the latest put, those earlier in the batch included; a key whose tag is its own in a bucket that has seen at most eight tags always hits |
| PmicaRoom.RoomIff | src/eRPC/apps/persistent_kv/pmica.h:367-388 | whether a new key finds room depends only on how many keys each chain has: it does if and only if the extra buckets all keys then need are no more than there are |
| PmicaRoom.NeededGrows | src/eRPC/apps/persistent_kv/pmica.h:367-388 | fewer keys never need more extra buckets |
| PmicaTable.ChainsDisjoint | src/eRPC/apps/persistent_kv/pmica.h:233-250 | chains are acyclic and disjoint, and no extra bucket is a regular one |
| PmicaTable.FreeListApart | src/eRPC/apps/persistent_kv/pmica.h:346-360 | the free list repeats nothing and holds empty buckets that no chain uses |
| PmicaTable.KeyOnce | src/eRPC/apps/persistent_kv/pmica.h:233-250 | a key has at most one slot, and the map says what is in it |
| PmicaTable.Overwrite | src/eRPC/apps/persistent_kv/pmica.h:431-436 | writing a key's own slot keeps the table well formed and changes that key only |
| PmicaTable.Fill | src/eRPC/apps/persistent_kv/pmica.h:411-436 | filling an empty slot of the right chain adds one key |
| PmicaTable.ExtendOk | src/eRPC/apps/persistent_kv/pmica.h:346-360 | hanging a free bucket off a chain keeps the table well formed and the map as it was |
| Pmica.AbsentFromChain | src/eRPC/apps/persistent_kv/pmica.h:233-250 | a key missing from the chain of its hash is nowhere in the table |
| Pmica.HashMap.FindItemIndex | src/eRPC/apps/persistent_kv/pmica.h:233-250 | the walk terminates and finds the key's slot, or the whole chain lacks it |
| Pmica.HashMap.Get | src/eRPC/apps/persistent_kv/pmica.h:325-344 | a get succeeds if and only if the map has the key, with its value |
| Pmica.HashMap.AllocExtraBucket | src/eRPC/apps/persistent_kv/pmica.h:346-360 | fails only on an empty free list, and leaves the map as it was |
| Pmica.HashMap.GetEmpty | src/eRPC/apps/persistent_kv/pmica.h:367-388 | fails if and only if the chain is full and the free list empty |
| Pmica.HashMap.SetNoDrain | src/eRPC/apps/persistent_kv/pmica.h:397-439 | a set changes exactly one key of the map; it fails if and only if the key is new, its chain full and the free list empty, which is if and only if the keys with this one do not fit the table |
| Pmica.HashMap.BatchOp | src/eRPC/apps/persistent_kv/pmica.h:293-300 | a batch ends in the map of its successful sets; each get answers from the sets before it, and each set succeeds if and only if its key is there by then or fits |
| RedoLog.OverwriteDrained | src/eRPC/apps/persistent_kv/pmica.h:258-300 | after any run of batches of at most kMaxBatchSize, an overwritten entry's table write is already persistent |
| RedoLog.LapDrains | src/eRPC/apps/persistent_kv/pmica.h:267-268 | reusing the log from its first slot drains the table writes of all earlier batches |
| RedoLog.BatchDrains | src/eRPC/apps/persistent_kv/pmica.h:430-436 | when a batch with sets returns, the table is behind by exactly its sets with asynchronous drains, and not at all without |
| RedoLog.NothingLost | src/eRPC/apps/persistent_kv/pmica.h:258-291 | at every point while a batch is logged, drains and uncommitted writes included, every earlier set is persistent in the table or committed and persistent in the log |
| RedoLog.NothingLostAfterCommit | src/eRPC/apps/persistent_kv/pmica.h:286-300 | from the commit on, at every point of the table writes, the same holds of the sets of the batch too |
| RedoLog.BatchPersistent | src/eRPC/apps/persistent_kv/pmica.h:252-257 | when a batch returns, all its sets are persistent in the log, with their keys and values |
| RedoLog.CommittedDurableIff | src/eRPC/apps/persistent_kv/pmica.h:286-291 | entries up to the committed number are persistent throughout a batch if and only if batching is off, the batch sets nothing, or nothing was logged before |
| RedoLog.UncommittedEntryCounts | src/eRPC/apps/persistent_kv/pmica.h:286-291 | one set after another is enough to break the rule with batching on |
| RedoLog.Writer.BatchOpDrain | src/eRPC/apps/persistent_kv/pmica.h:258-300 | the loops leave the log and the drain marks as the batch on values does |
| Recovery.ReplayRestores | src/eRPC/apps/persistent_kv/pmica.h:258-300 | whatever part of the undrained table writes a crash leaves, setting again what the log holds of the committed and persistent entries gives the map after exactly those sets, refused sets refused again |
| Recovery.RecoversWhileLogging | src/eRPC/apps/persistent_kv/pmica.h:258-291 | a crash at any point while a batch is logged is recovered to the map after a prefix of the sets: all of the returned batches, and of the batch all that is logged without redo-log batching, at most its first set with it |
| Recovery.RecoversOnceCommitted | src/eRPC/apps/persistent_kv/pmica.h:286-300 | from the commit on, at every point of the table writes, recovery gives the map after every set |
| Recovery.PrefixSurvives | src/eRPC/apps/persistent_kv/pmica.h:430-436 | the table after any number of the undrained writes is among what a crash may leave |
| PmicaStore.BatchMap | src/eRPC/apps/persistent_kv/pmica.h:258-300 | the table after a batch is the map after everything the log was ever given |
| PmicaStore.Store.BatchOpDrain | src/eRPC/apps/persistent_kv/pmica.h:258-300 | log and table together: the table stays the map of all logged sets, and after the batch recovery from any crash gives exactly that map |

## Left out

- RDMA verbs, queue pairs, multicast set-up and selective signalling; eRPC internals. Both are delivery of messages here.
- CityHash, trace parsing, statistics, latency measurement and thread pinning.
- Disabled configurations: multi-gets, local requests, multi-batching, wake-up logic, and the commented-out SC credits.
- src/ccKVS/backup.c and src/ccKVS/client-backup.c, superseded copies of the worker and the client.
- LIN hot-key pointers that survive from one batch to the next.
- Version numbers wrapping around at 32 bits.
- Mica.Kv.BatchOp: covers the first lap of the log only, because the wrap test uses the absolute head and does not fire
  again on later laps; the wrap branch is not modelled.
- Mica.Kv.InsertOne: the same first-lap restriction, as a precondition on the room left.
- RedoLog.NothingLost: a set that finds no room in the table counts as having had its turn there.
- Recovery.ReplayRestores: the program has no recovery, so the replay is the model's: ascending sequence numbers,
  committed and persistent entries, each set as the table sets it. Entries that reach persistent memory without a drain, and slots
  of which only a part of the key does, are not modelled; `RedoLog.CommittedDurableIff` says when the former matter.
- ColdBatch.NoStarvation: needs the window to exceed all queues together, as configured; a smaller window can stop a
  round early.
- Coalesce.SameMeaning: is about one thread on the cache; writes of other threads between two reads are not modelled.
- SeqlockSamples.AgreeingSamplesSeeOneValue: takes each metadata sample as one 8-byte load; `SplitSampleMissesStore`
  and `EqualVersionsHideOnlyUpdates` say what two loads lose and keep.
- LinCluster.LockFreeGetLinearizable: an operation takes effect in the protocol when its section decides, and its
  messages are in flight from then on. The program sends them once the section is over, so the model's runs include the
  program's and some with earlier deliveries. The pointer a GET hands out is followed later still.
- Lin.CacheLine.Get: has no interference, so neither the re-check after locking nor the retry loop; the interleaved
  reader is the one of `LinCluster`. The lock is likewise taken without waiting.
- Sc.ServeBatch: finds a key by comparing it with the number of cached keys, in place of bucket and tag.
- RedoLog.Writer.BatchOpDrain: the log and the drain marks only; `PmicaStore.Store` joins it with the table.
- CreditSystem.StepConserved: a round's steps may interleave freely, a superset of the client's fixed order.
- The counters of operations, failures and evictions in both hash tables.

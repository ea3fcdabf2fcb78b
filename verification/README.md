# Verified model of the tarsx core

tarsx is a small RPC framework: clients keep requests in flight and match responses to them, servers cut a byte
stream into requests, and the work is done by coroutines that a scheduler switches between. This project models
the four stateful parts that carry it, and proves what they promise.

**The coroutine scheduler.** `CoroutineRing` has the intrusive circular lists, as pointer surgery on nodes.
`CoroutineScheduling` has the scheduler as the object it is: five sentinels, a table by id, counters, a list of
self-yields, a wake queue and a deadline multimap, all updated in place. Every method is proved against a function on
values in `SchedulerModel`. About those functions `SchedulerInvariant` proves the invariant, and `SchedulerWaking`,
`SchedulerRounds`, `SchedulerEffects`, `SchedulerSleepers`, `SchedulerDeadlines` and `SchedulerIds` prove what each
wake-up, segment, round and whole run comes to. A context switch is a
step: a resumed coroutine performs any list of `createCoroutine`, `put` and `terminate` calls and then yields, sleeps or
finishes; which of these is arbitrary at every resume.

**The timeout queue.** `TimeoutQueues` keeps a map, a deadline-ordered multimap and a list of unsent requests that
point into each other; each operation is proved against a map from ids to value, deadline, sent flag and order of insertion.

**The byte path.** `Buffers` is the growable buffer with its capacity arithmetic; `Framing` and `Connections` are the
length-prefixed frames and the server's splitting of them; `Outgoing` and `Transceivers` are the client's writes to a
socket that takes what it likes; `RequestIds`, `Matching`, `RemoteCalls` and `ObjectProxies` are request ids and the
matching of responses, up to one theorem about the whole way there and back.

**The ring queue.** `LoopRing` has its index arithmetic, `LoopQueues` the queue on an array, used by one thread,
and `SpscRing` the interleaved steps of one producer and one consumer.

`Basics`, `Sequences` and `Folding` are shared helpers. Clock readings, socket results, allocation outcomes and arriving
bytes are arguments. `requires` clauses are assertions of the source, bounds that memory imposes, or the invariant.

What turned out false of the code is stated as it is, with the exact condition under which it holds. A sleep can end
early: in any reachable state the next round ends a sleep exactly if a request names the sleeper or any of its
entries is due, and an entry that an interrupted sleep left behind counts (`SchedulerSleepers.EarlyExactlyIf`,
`RousedSleeperWakesEarly`); so over a whole run from init nobody is woken early if and only if no round finds a request
for somebody who is to sleep on (`RunOnTimeIff`). After failed allocations the assertion of `generateId` can fail
(`SchedulerIds.GenerateIdHoldsIff`, `WastedIdOverflows`); the full test of the ring queue is right if and only if it
was made for at least one item (`LoopRing.FullIff`); `sendRequest` keeps a request whole if and only if it is shorter
than 2^31 bytes (`Outgoing.IntactIffShort`); the guard of `pushData` protects if and only if its sum does not wrap
(`Buffers.PushGuard`, `GuardWraps`); the percent test of `shrink` is right for every size of the data if and only if a
hundred times the capacity is in range (`Buffers.PercentTestIff`, `ShrinkOutOfRange`); a request cannot be registered if
and only if one is in flight from a multiple of 2^32 - 1 requests before (`Matching.AskFailsIff`, `FirstIdComesBack`); a
response always ends the request in flight that it is for, and no other, but one that comes when its request has ended
ends another if and only if one is in flight a multiple of 2^32 - 1 requests away (`Matching.EchoMatchesIff`,
`LateEchoEndsAnother`).

## Model

| member | source | states |
|---|---|---|
| CoroutineRing.HeadInit | tarsx/CoroutineScheduler.h:59-62 | the sentinel alone is the ring of the empty sequence |
| CoroutineRing.HeadEmpty | tarsx/CoroutineScheduler.h:65-67 | a sentinel points to itself exactly when its ring is empty |
| CoroutineRing.Link | tarsx/CoroutineScheduler.h:70-76 | linking a node between two neighbours inserts it at that place, both ways round |
| CoroutineRing.CoroutineAdd | tarsx/CoroutineScheduler.h:79-81 | inserts at the front of the sequence |
| CoroutineRing.CoroutineAddTail | tarsx/CoroutineScheduler.h:84-86 | appends to the sequence |
| CoroutineRing.CoroutineDel | tarsx/CoroutineScheduler.h:94-98 | removes exactly that one node and clears its links |
| CoroutineScheduling.CoroutineScheduler.constructor | tarsx/CoroutineScheduler.cc:180-192 | five separate empty rings, a table without coroutines |
| CoroutineScheduling.CoroutineScheduler.Init | tarsx/CoroutineScheduler.cc:194-247 | the object stands for the initial state of the model, however many stacks can be had; its invariant holds |
| CoroutineScheduling.CoroutineScheduler.GenerateId | tarsx/CoroutineScheduler.cc:478-482 | draws the next id |
| CoroutineScheduling.CoroutineScheduler.IncreaseCoroPoolSize | tarsx/CoroutineScheduler.cc:249-286 | grows pool, table and free ring by what was wanted or could be allocated, keeps every entry of the table, and fails exactly when that is nothing |
| CoroutineScheduling.CoroutineScheduler.CreateCoroutine | tarsx/CoroutineScheduler.cc:288-309 | takes the oldest free coroutine, after growing if none is free; refines the model's step |
| CoroutineScheduling.CoroutineScheduler.Relink | tarsx/CoroutineScheduler.cc:548-552 | takes a coroutine out of the one ring its status names and appends it to another, status included, with all five rings kept well formed |
| CoroutineScheduling.CoroutineScheduler.MoveToActive | tarsx/CoroutineScheduler.cc:489-503 | moves only from inactive or timeout |
| CoroutineScheduling.CoroutineScheduler.MoveToAvail | tarsx/CoroutineScheduler.cc:505-514 | moves only from inactive |
| CoroutineScheduling.CoroutineScheduler.MoveToInactive | tarsx/CoroutineScheduler.cc:516-530 | moves only from active or avail |
| CoroutineScheduling.CoroutineScheduler.MoveToTimeout | tarsx/CoroutineScheduler.cc:532-546 | moves only from active or avail |
| CoroutineScheduling.CoroutineScheduler.MoveToFreeList | tarsx/CoroutineScheduler.cc:554-570 | moves from any ring but free |
| CoroutineScheduling.CoroutineScheduler.Put | tarsx/CoroutineScheduler.cc:418-429 | queues the id unless terminated |
| CoroutineScheduling.CoroutineScheduler.Yield | tarsx/CoroutineScheduler.cc:377-384 | parks the running coroutine, noting a self-yield, and gives control back |
| CoroutineScheduling.CoroutineScheduler.Sleep | tarsx/CoroutineScheduler.cc:386-397 | files the deadline behind equal ones, parks the coroutine, gives control back |
| CoroutineScheduling.CoroutineScheduler.FinishCoroutine | tarsx/CoroutineScheduler.cc:156-178 | frees the coroutine and gives control back |
| CoroutineScheduling.CoroutineScheduler.WakeupByTimeout | tarsx/CoroutineScheduler.cc:446-465 | ends, and refines the model's expiry of sleepers |
| CoroutineScheduling.CoroutineScheduler.WakeupBySelf | tarsx/CoroutineScheduler.cc:405-416 | makes every self-yield runnable and clears the list |
| CoroutineScheduling.CoroutineScheduler.Wakeup | tarsx/CoroutineScheduler.cc:431-444 | drains the wake queue into the active ring |
| CoroutineScheduling.CoroutineScheduler.Resume | tarsx/CoroutineScheduler.cc:484-487 | switching to the head of a ring runs its segment and comes back to the scheduling loop |
| CoroutineScheduling.CoroutineScheduler.DispatchRing | tarsx/CoroutineScheduler.cc:355-363 | the loop over one ring resumes exactly the ids the model's dispatch resumes, in that order |
| CoroutineScheduling.CoroutineScheduler.TarsRun | tarsx/CoroutineScheduler.cc:350-375 | one call refines one tick of the model, with the ids resumed from each ring |
| CoroutineScheduling.CoroutineScheduler.RunIteration | tarsx/CoroutineScheduler.cc:321-345 | one iteration of run; it stops exactly when the four rings of used coroutines are empty |
| CoroutineScheduling.CoroutineScheduler.Destroy | tarsx/CoroutineScheduler.cc:572-581 | releases exactly the stacks that were ever allocated, as a ledger kept at the allocations has them, each once |
| CoroutineScheduling.CoroutineScheduler.Run | tarsx/CoroutineScheduler.cc:311-348 | run as far as given iterations take it; once it is left, every allocated stack is released exactly once |
| SchedulerInvariant.RingsAreDisjoint | tarsx/CoroutineScheduler.cc:489-570 | no coroutine is in two rings or twice in one, and its status names its ring |
| SchedulerInvariant.InitialInv | tarsx/CoroutineScheduler.cc:194-247 | the invariant holds after init |
| SchedulerInvariant.GrowKeepsCore | tarsx/CoroutineScheduler.cc:249-286 | growing keeps rings, table and counters in step, also when an allocation fails |
| SchedulerInvariant.Accounting | tarsx/CoroutineScheduler.cc:289 | free + used = current <= pool; the two tests of createCoroutine agree; usedSize is zero exactly when the four other rings are empty |
| SchedulerInvariant.CreateKeepsCore | tarsx/CoroutineScheduler.cc:288-309 | createCoroutine never unlinks the sentinel and keeps the invariant |
| SchedulerInvariant.CreateOutcome | tarsx/CoroutineScheduler.cc:288-309 | fails exactly when no coroutine is free and the pool is full or no stack can be had; else hands out the oldest free coroutine or the first of those just made, as many as are missing and can be had but at most 100, at the tail of avail, and touches no other ring |
| SchedulerInvariant.EndKeepsInv | tarsx/CoroutineScheduler.cc:377-397 | suspending or finishing takes the coroutine off the head of its ring, keeps the invariant, and usedSize does not underflow |
| SchedulerInvariant.WakePhaseFacts | tarsx/CoroutineScheduler.cc:352-354 | no lost wake-up: every self-yield and every requested coroutine in use is runnable afterwards, and nothing due is left |
| SchedulerRounds.DispatchActive | tarsx/CoroutineScheduler.cc:355-363 | resumes exactly the first min(100, length) coroutines of the active ring, in order |
| SchedulerRounds.DispatchAvail | tarsx/CoroutineScheduler.cc:365-373 | resumes the avail ring in order; coroutines created meanwhile queue up behind |
| SchedulerRounds.RoundFacts | tarsx/CoroutineScheduler.cc:350-375 | a round keeps the invariant at each of its stages and serves both rings in order |
| SchedulerRounds.RoundYields | tarsx/CoroutineScheduler.cc:377-416 | after a round the self-yield list is duplicate-free and holds exactly the coroutines that yielded to themselves in it |
| SchedulerRounds.Reachable | tarsx/CoroutineScheduler.cc:311-375 | over every run of calls, ticks and iterations of run, the invariant and the pool accounting hold |
| SchedulerRounds.RunEnds | tarsx/CoroutineScheduler.cc:312-346 | run is left exactly when it is terminated or nothing is in use, with the invariant kept |
| SchedulerRounds.RunIterates | tarsx/CoroutineScheduler.cc:311-348 | run is its iterations one by one, up to the first after which it is terminated or nothing is in use |
| SchedulerRounds.CallIsTick | tarsx/CoroutineScheduler.cc:321-351 | a call of tars_run that is not terminated is a round with quota 100 for avail, an iteration of run one with quota 1 |
| SchedulerRounds.BoundedWaiting | tarsx/CoroutineScheduler.cc:350-375 | the coroutine k places from the head is resumed as the (k mod 100)-th in the (k / 100)-th call of tars_run |
| SchedulerRounds.BoundedWaitingInRun | tarsx/CoroutineScheduler.cc:326-341 | in run, the same for the active ring, and k places back in avail means the k-th further iteration |
| SchedulerRounds.RunnableIsServed | tarsx/CoroutineScheduler.cc:350-375 | whatever is runnable after the wake-up phase is resumed within poolSize / 100 further calls |
| SchedulerRounds.WakeUpIsServed | tarsx/CoroutineScheduler.cc:352-374 | so is every coroutine that yielded to itself or was put, in use, into the wake queue |
| SchedulerRounds.WakeUpIsServedInRun | tarsx/CoroutineScheduler.cc:321-341 | in run, within poolSize further iterations |
| SchedulerWaking.WakeByTimeoutDrops | tarsx/CoroutineScheduler.cc:453-462 | exactly the entries later than now are left |
| SchedulerWaking.WakeByTimeoutWakes | tarsx/CoroutineScheduler.cc:453-462 | the waiting coroutines among the due ones join the active ring in deadline order, each at its first due entry; all five rings in closed form |
| SchedulerWaking.WakeBySelfWakes | tarsx/CoroutineScheduler.cc:405-416 | the self-yields that are inactive join the avail ring in the order of the list, which is cleared |
| SchedulerWaking.WakeupWakes | tarsx/CoroutineScheduler.cc:431-444 | the requested coroutines that wait join the active ring in the order of the requests, each at its first one, and the queue is cleared |
| SchedulerWaking.WakePhaseIs | tarsx/CoroutineScheduler.cc:352-354 | the whole wake-up phase in closed form: due sleepers, then self-yields, then requests |
| SchedulerWaking.WakeOrder | tarsx/CoroutineScheduler.cc:352-354 | what that is for the runnable rings: avail gets the self-yields that no entry woke, active the due sleepers and then the requested ones that still wait |
| SchedulerInvariant.InsertSleeperPlace | tarsx/CoroutineScheduler.cc:386-397 | a deadline is filed behind every one that is not later and in front of every later one |
| SchedulerDeadlines.FiledInOrder | tarsx/CoroutineScheduler.cc:386-465 | over every run from init and for every deadline, the entries for it are the last of the sleeps until then, in the order in which these began |
| SchedulerDeadlines.EqualDeadlines | tarsx/CoroutineScheduler.cc:446-465 | of two sleepers whose first deadlines are the same, the one filed first is woken first, and only then |
| SchedulerEffects.MoveOutcome | tarsx/CoroutineScheduler.cc:489-570 | the eleven moves there are: off the ring the coroutine is in, to the tail of the other; any other request changes nothing |
| SchedulerEffects.InitialOutcome | tarsx/CoroutineScheduler.cc:194-247 | after init the ids from 1 on are free, as many as there is room and memory for but at most 100, and nothing is going on |
| SchedulerEffects.EndOutcome | tarsx/CoroutineScheduler.cc:156-178 | where a yield, a sleep and a finish lead, and what each leaves in the list, the multimap and the count |
| SchedulerEffects.TerminatedIsQuiet | tarsx/CoroutineScheduler.cc:350-465 | once terminated, a tick does nothing, nobody is woken and no request is queued |
| SchedulerEffects.ApplyAllAsked | tarsx/CoroutineScheduler.cc:418-429 | over any stretch of code the wake queue grows by exactly the ids put, in order, until terminated |
| SchedulerEffects.ResumeAsked | tarsx/CoroutineScheduler.cc:418-429 | what a resumed coroutine puts, and a termination, show once it has given up control |
| SchedulerEffects.RoundAsked | tarsx/CoroutineScheduler.cc:350-429 | after a round the wake queue holds exactly the ids put in it, in order, and it is terminated exactly if somebody did that |
| SchedulerEffects.PutIsServed | tarsx/CoroutineScheduler.cc:350-444 | a coroutine in use that another thread puts is resumed within poolSize / 100 calls of tars_run after the next one |
| SchedulerEffects.PutIsServedInRun | tarsx/CoroutineScheduler.cc:321-444 | in run, within poolSize iterations after the next one |
| SchedulerEffects.PutInRoundIsServed | tarsx/CoroutineScheduler.cc:350-444 | so is one that a coroutine puts, counted from the call after |
| SchedulerEffects.ApplyAllCreated | tarsx/CoroutineScheduler.cc:288-309 | of the creations in a stretch of code exactly those succeed for which a coroutine is free or the pool can grow; the coroutines are at the tail of avail, handed out in the order in which they became free |
| SchedulerEffects.ResumeCreates | tarsx/CoroutineScheduler.cc:288-309 | what a resumed coroutine creates is there once it has given up control |
| SchedulerSleepers.OnTime | tarsx/CoroutineScheduler.cc:446-465 | with entries and sleepers in bijection, exactly the due ones are woken, each once, and the bijection is kept |
| SchedulerSleepers.SleepsOnIff | tarsx/CoroutineScheduler.cc:405-465 | whatever entries there are, a sleeper sleeps on exactly if no request names it and none of its entries is due |
| SchedulerSleepers.EarlyExactlyIf | tarsx/CoroutineScheduler.cc:386-465 | in every reachable state the entry of each sleep is there, and the next round ends a sleep exactly if a request names the sleeper or one of its entries is due |
| SchedulerSleepers.DueIsServed | tarsx/CoroutineScheduler.cc:350-374 | a sleeper with an entry that is due is resumed within poolSize / 100 further calls of tars_run |
| SchedulerSleepers.DueIsServedInRun | tarsx/CoroutineScheduler.cc:321-341 | in run, within poolSize further iterations |
| SchedulerSleepers.RoundEarlyIff | tarsx/CoroutineScheduler.cc:350-375 | a round takes nobody from its sleep early exactly if no request names a sleeper before its time and no older entry of a sleeper is due; whoever it leaves asleep it does not resume |
| SchedulerSleepers.RunOnTimeIff | tarsx/CoroutineScheduler.cc:311-375 | over every run from init, no round takes anybody from its sleep early if and only if no round finds a request for somebody who is to sleep on |
| SchedulerSleepers.WakePhaseFaithful | tarsx/CoroutineScheduler.cc:431-465 | from a bijection of entries and sleepers, the wake-up phase keeps it exactly when no request names a sleeper before its deadline |
| SchedulerSleepers.RoundFaithful | tarsx/CoroutineScheduler.cc:350-375 | exactly then, from a bijection, the wake-up phase leaves asleep everyone whose deadline is to come, and the whole round resumes none of them and keeps the bijection |
| SchedulerSleepers.RunFaithful | tarsx/CoroutineScheduler.cc:311-375 | over every run without such a request, entries and sleepers stay in bijection |
| SchedulerSleepers.RousedSleeperWakesEarly | tarsx/CoroutineScheduler.cc:431-465 | a run from init after which the entry of an interrupted sleep cuts the next sleep short, with no request pending |
| SchedulerIds.IdsNeverReused | tarsx/CoroutineScheduler.cc:478-482 | over every run, ids lie in 1..poolSize, no coroutine disappears, and new ones have ids never drawn before |
| SchedulerIds.NoIdWasted | tarsx/CoroutineScheduler.cc:257-284 | while stacks can be allocated uniqId equals currentSize, so the assertion of generateId holds in the next createCoroutine |
| SchedulerIds.GenerateIdHoldsIff | tarsx/CoroutineScheduler.cc:478-482 | exactly when the assertion holds in the next createCoroutine however much memory there is: a coroutine is free, or no id was wasted, or a whole growth still fits |
| SchedulerIds.WastedIdOverflows | tarsx/CoroutineScheduler.cc:260-270 | a run in which a failed allocation makes it fail |
| TimeoutQueues.TimeoutQueue.Push | tarsx/TimeoutQueueNew.hpp:122-141 | registers an id that is not in flight; a duplicate changes nothing |
| TimeoutQueues.TimeoutQueue.Get | tarsx/TimeoutQueueNew.hpp:98-113 | finds the value, and removes exactly that entry if asked |
| TimeoutQueues.TimeoutQueue.Erase | tarsx/TimeoutQueueNew.hpp:217-234 | removes exactly that entry and hands out its value |
| TimeoutQueues.TimeoutQueue.PopSend | tarsx/TimeoutQueueNew.hpp:85-96 | takes the unsent request pushed first, marks it sent or drops it |
| TimeoutQueues.TimeoutQueue.SendListEmpty | tarsx/TimeoutQueueNew.hpp:54-56 | tells exactly whether every request in flight is sent |
| TimeoutQueues.TimeoutQueue.TimeoutOne | tarsx/TimeoutQueueNew.hpp:163-186 | removes and hands out the first to expire, or nothing is due |
| TimeoutQueues.TimeoutQueue.TimeoutEach | tarsx/TimeoutQueueNew.hpp:188-215 | hands out values in expiry order, each due at its own reading of the clock, until nothing is due; it ends |
| TimeoutQueues.TimeoutQueue.Timeout | tarsx/TimeoutQueueNew.hpp:143-161 | the same by one reading of the clock |
| TimeoutQueues.IteratorsPointBack | tarsx/TimeoutQueueNew.hpp:28-41 | map and multimap are in bijection, the send list holds exactly the unsent, and every iterator points back |
| TimeoutQueues.HeadIsFirst | tarsx/TimeoutQueueNew.hpp:149-152 | the first node of the multimap is the entry to expire first, ties in order of insertion |
| TimeoutQueues.BackIsOldest | tarsx/TimeoutQueueNew.hpp:88 | the back of the send list is the unsent request pushed first |
| TimeoutQueues.ExpiryIsOrdered | tarsx/TimeoutQueueNew.hpp:188-215 | an expiry loop hands out each value once, in order of deadline and insertion, all before what it leaves |
| TimeoutQueues.ExpiresExactlyTheDue | tarsx/TimeoutQueueNew.hpp:143-161 | if the clock passes no deadline meanwhile, exactly the entries due at the start are removed |
| TimeoutQueues.NothingIsLost | tarsx/TimeoutQueueNew.hpp:122-234 | what was ever pushed is what is in flight plus what was removed, once each |
| Buffers.RoundUp2Power | tarsx/Buffer.cc:12-21 | the least power of two at or above the size, without overflow up to 2^63 |
| Buffers.PushGuard | tarsx/Buffer.cc:31-33 | what the guard lets through stays within 2^63 bytes exactly when its sum did not wrap |
| Buffers.GuardWraps | tarsx/Buffer.cc:31-33 | a pair that passes by wrapping around |
| Buffers.Buffer.Produce | tarsx/Buffer.h:10-12 | makes bytes written ahead part of the queue |
| Buffers.Buffer.Consume | tarsx/Buffer.cc:59-66 | drops bytes from the front; an empty buffer is back at position zero |
| Buffers.Buffer.PopData | tarsx/Buffer.cc:40-52 | hands out at most that many bytes from the front, in order |
| Buffers.Buffer.GrowCapacity | tarsx/Buffer.cc:120-136 | ends, never reaches assert(false), and gives max(128, least power of two that suffices) |
| Buffers.Buffer.AssureSpace | tarsx/Buffer.cc:112-155 | makes the room asked for and keeps the contents, whether it moves them, re-allocates or does nothing; both assertions hold |
| Buffers.Buffer.PushData | tarsx/Buffer.cc:27-38 | appends all of the data, or nothing if the guard refuses it; what it re-copies is as in the cost model |
| Buffers.Buffer.Shrink | tarsx/Buffer.cc:68-94 | keeps the contents; an empty buffer gives up its memory, another goes down to the least power of two |
| Buffers.Buffer.Swap | tarsx/Buffer.cc:100-105 | exchanges two buffers |
| Buffers.ShrinkHalves | tarsx/Buffer.cc:80-90 | in range, a buffer is re-allocated exactly when at most half full, which at least halves it |
| Buffers.PercentTestIff | tarsx/Buffer.cc:82 | the percent test is right for every size of the data exactly for capacities whose hundredfold is in range; each greater one has a size for which it misfires |
| Buffers.ShrinkOutOfRange | tarsx/Buffer.cc:82 | a full buffer of 2^63 bytes passes the test and is re-allocated at its size |
| Buffers.AmortisedCopying | tarsx/Buffer.cc:112-145 | any run of pushes of T > 0 bytes into a fresh buffer re-copies fewer than 2T bytes |
| Framing.Be32RoundTrip | tarsx/ObjectProxy.cc:23-26 | htonl writes the high byte first, and ntohl reads the number back as a signed one |
| Framing.SplitAppend | tarsx/Connection.cc:44-63 | splitting as bytes arrive gives what splitting them all at once gives |
| Framing.NegativeLength | tarsx/Connection.cc:44-63 | after any complete frames, a length below -5 waits for ever, one from -5 on throws with its header taken, or fails the assertion of consume if no more than the length is there |
| Framing.CompleteCountIsMaximal | tarsx/Connection.cc:49 | the number of complete frames is the greatest whose encoding has arrived |
| Framing.DecodesPrefix | tarsx/Connection.cc:44-63 | any prefix of an encoding decodes to exactly the payloads complete in it and leaves exactly the rest |
| Framing.RoundTrip | tarsx/Connection.cc:36-64 | however the stream is cut into calls of recv, the payloads delivered are the prefix whose frames are complete, in order, and the buffer holds exactly the undecoded bytes |
| Connections.Connection.Accumulate | tarsx/Connection.cc:18-40 | appends what is read, up to the first short read or the end, without the chunks pushData refuses |
| Connections.IntakeIs | tarsx/Connection.cc:18-40 | a call takes in the full reads and a short one after them, and meets the end exactly if the peer is gone then |
| Connections.TakenAllIff | tarsx/Connection.cc:36 | something is refused exactly if something arrives and makes 2^63 - 1 bytes or more with what is held |
| Connections.Connection.SplitAll | tarsx/Connection.cc:44-63 | ends, and moves exactly the complete frames from the buffer to the queue, up to an incomplete one or a negative length, with what is then left |
| Connections.Connection.Recv | tarsx/Connection.cc:15-66 | one call as a function of what was kept and what arrives, with the closed connection, the negative length that throws and the assertion that fails first |
| Outgoing.StreamIntact | tarsx/Transceiver.cc:59-106 | over every run with any partial writes, bytes written and then bytes kept are the accepted requests, whole and in order |
| Outgoing.WireGrows | tarsx/Transceiver.cc:59-106 | in every event the wire grows by exactly what the socket takes of the request it is offered or of what is kept |
| Outgoing.WireIsTaken | tarsx/Transceiver.cc:59-106 | over every run the wire is what the socket took, in order, and nothing else |
| Outgoing.SendLeaves | tarsx/Transceiver.cc:88-106 | a refused request leaves no trace; of an accepted one the part not taken is kept, and the result tells whether there is one |
| Outgoing.IntactIffShort | tarsx/Transceiver.cc:101-103 | the 32-bit comparison keeps a request whole exactly when it is shorter than 2^31 bytes |
| Transceivers.Transceiver.SendRequest | tarsx/Transceiver.cc:88-106 | refuses while bytes are kept or on error, else writes what is taken and keeps the rest |
| Transceivers.Transceiver.DoRequest | tarsx/Transceiver.cc:59-81 | writes more of what is kept and drops exactly that |
| Transceivers.ReadInto | tarsx/Transceiver.cc:113-132 | a scattered read appends its bytes in order, across buffer and stack, but for a part from the stack that pushData refuses |
| Transceivers.Transceiver.Close | tarsx/Transceiver.cc:21-31 | gives up the socket and what is kept |
| Transceivers.Transceiver.DoResponse | tarsx/Transceiver.cc:108-150 | hands out everything received as one response and empties the buffer; nothing if the connection ended |
| RequestIds.NthIdIs | tarsx/ObjectProxy.h:19-25 | the n-th generated id, in closed form |
| RequestIds.IdsRepeat | tarsx/ObjectProxy.h:19-25 | ids repeat exactly after multiples of 2^32 - 1 generations |
| RequestIds.DigitsAreDecimal | tarsx/ObjectProxy.cc:21 | the k-th digit from the right counts the powers 10^k, and there is no leading zero |
| RequestIds.BeforeColonIs | tarsx/ObjectProxy.cc:71 | the prefix is what stands before the first colon, or everything |
| RequestIds.KeyIs | tarsx/ObjectProxy.cc:71-75 | any white space, a sign or none, and digits name the request of that number as 32 bits, whatever follows |
| RequestIds.DecimalRoundTrip | tarsx/ObjectProxy.cc:21 | reading back the decimal text of any int gives that int |
| RequestIds.TagRoundTrip | tarsx/ObjectProxy.cc:71-75 | for every id and whatever follows the colon, prefix, atoi and conversions give back the key used in push |
| RequestIds.NoNumberIsZero | tarsx/ObjectProxy.cc:71-75 | a response without a number asks for id zero |
| Matching.AskFailsIff | tarsx/ObjectProxy.cc:31-36 | exactly when a request cannot be registered |
| Matching.FirstIdComesBack | tarsx/ObjectProxy.cc:31-36 | a run of 2^32 requests whose last is not registered, the first being unanswered |
| Matching.EchoMatches | tarsx/ObjectProxy.cc:67-83 | a response that repeats the prefix of a request in flight removes that request and no other, however many requests there have been |
| Matching.EchoMatchesIff | tarsx/ObjectProxy.cc:67-83 | for any request, in flight or ended, it ends that one and no other exactly if no other in flight lies a multiple of 2^32 - 1 requests away |
| Matching.LateEchoEndsAnother | tarsx/ObjectProxy.cc:67-83 | a run in which a second response to the first request ends the one 2^32 - 1 requests after it |
| Matching.AnswerRemovesAtMostOne | tarsx/ObjectProxy.cc:67-83 | any response removes at most the one request it names; zero names none |
| Matching.GarbageIsIgnored | tarsx/ObjectProxy.cc:67-83 | after any run, a response that does not start with a number changes nothing |
| Matching.AllAreRegistered | tarsx/ObjectProxy.cc:14-45 | over every run of up to 2^32 - 1 requests, whatever the responses, each is registered under an id of its own |
| Matching.ResponsesMatch | tarsx/ObjectProxy.cc:14-83 | over every run, however long, a response to a request in flight ends that request and changes nothing else |
| Matching.ResponsesMatchIff | tarsx/ObjectProxy.cc:14-83 | over every run, a response to any request made in it ends that one, if it has not ended, and no other, exactly if no other in flight lies a multiple of 2^32 - 1 requests away |
| Matching.ResponsesMatchAtFirst | tarsx/ObjectProxy.cc:14-83 | which holds throughout a client's first 2^32 - 1 requests |
| Matching.WithoutRequestIs | tarsx/ObjectProxy.cc:67-83 | what ending one request means: every other is as it was, and it is removed once |
| RemoteCalls.FrameIsEncoding | tarsx/ObjectProxy.cc:21-28 | a request of up to 2^31 - 18 bytes makes a frame with its true length that sendRequest can keep whole |
| RemoteCalls.RunStreams | tarsx/ObjectProxy.cc:14-45 | over every run of a client, its stream is the encoding of exactly the requests it wrote, in order |
| RemoteCalls.MarkedAsWritten | tarsx/ObjectProxy.cc:28-41 | over every run a request in flight is marked as sent exactly if its frame was written, and none was written after one that is still to be sent |
| RemoteCalls.WrittenIff | tarsx/ObjectProxy.cc:28-41 | a request is written exactly if none in flight is still to be sent then, nothing of an earlier one is kept, and the socket does not refuse it |
| RemoteCalls.CallsMatch | tarsx/ObjectProxy.cc:14-83 | the whole way, over runs of any length: each delivered payload is the tagged text of the request in that place, every request in flight holds the message it was made with and expires 1000 after it was made, and a reply to the payload ends its request and no other if it is in flight, and in general exactly if no other in flight lies a multiple of 2^32 - 1 requests away |
| RemoteCalls.CallsMatchAtFirst | tarsx/ObjectProxy.cc:14-83 | for a client's first 2^32 - 1 requests a reply always ends its request and no other |
| ObjectProxies.ObjectProxy.GenerateId | tarsx/ObjectProxy.h:19-25 | the next 32-bit id, past zero |
| ObjectProxies.ObjectProxy.SendReqMessage | tarsx/ObjectProxy.cc:14-45 | tags, frames, sends and registers; refines the model's step, and ends a request in error that cannot be registered |
| ObjectProxies.ObjectProxy.FinishInvoke | tarsx/ObjectProxy.cc:67-83 | ends exactly the request the response names, and hands the response to its message only |
| ObjectProxies.ObjectProxy.FinishMessage | tarsx/ObjectProxy.cc:85-94 | wakes a synchronous caller or queues an asynchronous callback |
| LoopRing.FullIff | tarsx/LoopQueue.hpp:55-58 | the full test is right exactly if the queue was made for at least one item |
| LoopRing.TooManyIff | tarsx/LoopQueue.hpp:92-96 | the bulk test refuses exactly what does not fit |
| LoopRing.StoredPush | tarsx/LoopQueue.hpp:60-71 | writing at the write index touches no stored item, at every wrap position |
| LoopRing.BulkIsSingles | tarsx/LoopQueue.hpp:90-109 | a bulk push succeeds exactly when pushing one by one would, and then has the same effect |
| LoopQueues.LoopQueue.PushBack | tarsx/LoopQueue.hpp:52-83 | appends unless full, and tells whether the queue was empty |
| LoopQueues.LoopQueue.PushBackAll | tarsx/LoopQueue.hpp:90-109 | appends the whole batch or changes nothing |
| LoopQueues.LoopQueue.PopFront | tarsx/LoopQueue.hpp:111-136 | takes the oldest item |
| LoopQueues.LoopQueue.GetFront | tarsx/LoopQueue.hpp:138-144 | shows the oldest item |
| LoopQueues.LoopQueue.Size | tarsx/LoopQueue.hpp:153-160 | the number of items |
| SpscRing.RefusesIff | tarsx/LoopQueue.hpp:54-58 | the producer refuses exactly what would not have fitted when it read the other index |
| SpscRing.WriteIsSafe | tarsx/LoopQueue.hpp:60 | the slot about to be written holds no item still to be popped |
| SpscRing.StepRefines | tarsx/LoopQueue.hpp:52-136 | publishing appends to the shared queue, advancing takes its first item, no other step changes it, and a failed pop saw it empty |
| SpscRing.AlwaysFifo | tarsx/LoopQueue.hpp:52-136 | for every interleaving: popped items, then stored items, then what is left of the call under way, are what the accepted calls were given, in order |
| SpscRing.TestDecides | tarsx/LoopQueue.hpp:54-71 | the test lets a call go on with all of its items, or ends it with nothing done, by the count at the snapshot |
| SpscRing.RefusedIffFull | tarsx/LoopQueue.hpp:52-71 | over every interleaving, the test of a call accepts all of its items if they fitted at the moment of its snapshot, and otherwise ends it with nothing accepted |
| SpscRing.NeverStuck | tarsx/LoopQueue.hpp:52-136 | a thread can always make its next step |
| SpscRing.PushCall | tarsx/LoopQueue.hpp:52-109 | for every interleaving, a call whose items fit pushes the k-th of them in the k-th pair of steps after its test and is then over; any other ends with its test |
| SpscRing.PopCall | tarsx/LoopQueue.hpp:111-136 | for every interleaving, a call pops the item that was first when it looked in two more steps, and ends at once if there was none |

## Left out

- The machine-level context switch, stack allocation and page arithmetic (tarsx/CoroutineScheduler.cc:40-102): allocation succeeds or fails as an argument says, and a switch is a step.
- `new` and containers running out of memory; exceptions of a coroutine's function other than as its end.
- CoroutineScheduling.CoroutineScheduler.Init: is called once on a fresh scheduler and not with poolSize 2^32 - 1, for which the table would wrap around to no slot at all.
- CoroutineScheduling.CoroutineScheduler.Sleep: the span is a mathematical integer, so negating the least 32-bit number is not undefined.
- CoroutineScheduling.CoroutineScheduler.Run: `run` may go on for ever, so it is followed as far as a list of inputs lasts; the wait on the monitor before an iteration changes nothing that is modelled.
- CoroutineScheduling.CoroutineScheduler.RunIteration: one turn of `run`; the loop around it and the release of the stacks are in `Run`.
- CoroutineScheduling.CoroutineScheduler.Put: notifying the monitor is left out; that the ids put are those of coroutines, which `wakeup` asserts, is assumed of runs.
- CoroutineScheduling.CoroutineScheduler.Resume: calls of `put` and `terminate` by other threads happen between the steps of the scheduler, not inside them.
- CoroutineScheduling.CoroutineScheduler.GenerateId: the uid of a coroutine is fixed when it is made, where the source sets it right after construction and never again.
- `coroutineMove`, `coroutineMoveTail` and the second argument of `moveToActive`, which nothing uses.
- TimeoutQueues.TimeoutQueue.TimeoutEach: the callback does not call back into the queue; exceptions from it are swallowed by the source and not modelled.
- TimeoutQueues.TimeoutQueue.Push: iterators are handles that stay valid when the hash map rehashes, as the source relies on.
- `getSend` and `doInvoke`: `getSend` never assigns what it returns and `doInvoke` never pops; `DoRequest` ends where the source goes on to `doInvoke`.
- `TimeoutQueueNew::generateId`, which starts from an uninitialised counter.
- `set_highWaterPercent`, which is declared but not defined: the percentage is 50.
- Buffers.Buffer.PushData: null pointers are left out, and sizes that pass the guard by wrapping around, for which `assureSpace` asserts false.
- Connections.Connection.Recv: the peer's address and the callers' bookkeeping of requests are left out.
- `Connection::send` and `adjustSlices`, which are unfinished.
- Transceivers.Transceiver.DoRequest: ends where the source goes on to `doInvoke`.
- Transceivers.Transceiver.DoResponse: totals within 8192 bytes of 2^63, for which `assureSpace` asserts false, are excluded; like the source it does not split a stream of several responses.
- RemoteCalls.CallsMatch: the connection stays open, requests have up to 2^31 - 18 bytes, and the server repeats the prefix; what it computes is arbitrary.
- RequestIds.NoNumberIsZero: outside the range of int, where the standard leaves `atoi` undefined, the model saturates at 64 bits and keeps the low 32.
- ObjectProxies.ObjectProxy.FinishMessage: callback threads are one queue, not one per thread.
- The three-output `push_back` of the ring queue, and the `empty` flag of `push_back` under concurrency.
- SpscRing.AlwaysFifo: memory is sequentially consistent and reads and writes of an index are atomic.
- Sockets, epoll, threads and locks, logging, servants, adapters, the registry, start-up and the network threads' hand-out of connection ids.

# Verified models of the lock-free queues and the thread pool

The repository is a header-only C++ library of four single-producer ring-buffer
queues and a thread pool. This project models each as a state machine whose
steps are single atomic loads, stores and CASes, with the construction, copying,
moving and destruction of the payload as steps of their own, and proves what the
headers promise for every interleaving, any number of consumers and any
capacity. Every finite sequence of actions is a run: an action whose thread is
elsewhere in its code changes nothing.

| files | what they hold |
|---|---|
| `Ring.dfy` | positions and slots, masks, the capacity check |
| `Spmc*.dfy` | `SPMCQueue`: competing consumers, one sequence number per slot |
| `Overwrite*.dfy` | `SPMCOverwriteQueue`: lossy fan-out, one seqlock per slot |
| `Broadcast*.dfy` | `SPMCBroadcastQueue`: lossless fan-out, cached gating |
| `Agreement.dfy` | the two fan-out queues agree where both are lossless |
| `Pool*.dfy`, `ThreadPool.dfy` | the worker pool: mutex, condition variable, shutdown |
| `Spsc.dfy`, `SpscQueue.dfy` | `SPSCQueue`: masked indices, one slot unused |

For each queue, `...Model` holds the state and the steps, `...Invariant` the
invariant and its preservation, `...Theorems` what it means, `...Scenarios` runs
that show where a promise fails, and `...Queue` the class itself. The class
updates arrays and counters in place, one method per atomic step, each proved to
be the step of the model; the public operations are built from these methods,
with their loops, and call `Yield` between any two steps. `Yield` performs an
arbitrary slice of the other threads' steps, given by the argument `env`, all of
it and nothing else: the contract says by exactly which actions the history has
grown. So the contract of `TryPop`, say, holds whatever the others do between its
loads; and a call that blocks comes back without success only after the others
have taken every step the schedule has for them. The
threads' program counters are fields of the object, since an interleaving cuts
every call into pieces.

## Assumptions

- Interleavings are sequentially consistent. Three loads may nevertheless return
  any older value, because the code allows for it: the first load of `head_` in
  a pop, and the loads of `published_` in `make_consumer` and `lapped_to`. The
  reload of a stale `head_`, and the value a failed CAS leaves in `h`, may be any
  value not above `head_`; the reload is taken to be above the old copy, which
  the acquire load of a released sequence guarantees.
- The payload of the overwriting queue is copied one word at a time, in and out,
  in any order of the words and interleaved at will.
- One thread produces; each consumer handle is driven by one thread at a time.
- `wait` compares, then sleeps in the same step; it may wake spuriously. As the
  C++ standard has it for atomic waits, a notify has to unblock a thread that
  blocked on a value older than a store preceding the notify, if there is one.
  So the `notify_one` after the release of `h` must wake a sleeper on that slot
  if there is one that saw a value older than `h + C`, and need not wake, nor
  may it choose instead, a thread that fell asleep on the present value.
- Counters are unbounded. `SpmcWords` shows what 64-bit wrap-around changes for
  `SPMCQueue`.

## Where the code and its comments disagree

The model follows the code.

- include/SPMCLockFreeQueue.h:223 says a refused producer saw a sequence above
  `t`. It always sees `t - C + 1`, which is below `t` (`ProducerLoadIsExact`).
- include/SPMCLockFreeQueue.h:209 and :223 call a refusal "full". It means that
  the position one lap back is unreleased, which can be while the queue is empty
  (`RefusedWhileEmpty`). It happens on a queue that is not full if and only if a
  consumer has claimed that position and still holds it
  (`RefusedThoughNotFullIff`); without a pop in progress it does mean full
  (`RefusedMeansFull`).
- include/SPMCLockFreeQueue.h:384 takes `tail_ - head_` to be at most the
  capacity. Publication precedes the store of `tail_`, so at one instant `head_`
  can be one past `tail_` (`HeadPassesTail`): exactly while the last item
  published has been claimed and its store of `tail_` is to come, and otherwise
  the bound holds (`HeadPassesTailIff`). Moreover `size_approx` loads the two at
  different instants. `SizeApproxWrapsIff` says exactly when its subtraction
  wraps, and bounds its answer by the capacity and the claims in between; it can
  exceed the capacity without any wrap (`SizeApproxExceedsCapacity`).
- include/SPMCLockFreeQueue.h:299 says that `notify_one` wakes the producer
  blocked in `emplace_wait`. When a consumer has been asleep on the same slot
  since before the release, and still is, the notify may wake that one instead,
  and the two blocking calls deadlock (`ProducerCanBeStranded`). With such a
  rival the scheduler can always do so (`RivalMayStrand`), without one the notify
  must wake the producer (`NoRivalWakesProducer`), and nothing else strands it
  (`StrandedExactlyByMisdirection`). It is enough that no consumer sleeps on the
  slot when it is released (`AloneAtReleasesNoStranding`).
- include/SPMCLockFreeQueue.h:306-309 takes a large unsigned difference to mean
  that the item is not written yet. A copy of `head_` that lags by about 2^63
  positions gives one too: `StaleCopyLooksEmpty` is a run that ends with an item
  in the queue, a stale copy and the verdict empty. `WordVerdictExact` has the
  exact distance, and `ConsumerTestOnWords` what keeps a pop within it.
- include/SPMCOverwriteQueue.h:178-180 says that a recovery loses only what was
  genuinely overwritten. That fails exactly when the `published_` it loads makes
  it fall back to `newest` while the position before `newest` is still in the
  ring (`LosesOnlyOverwrittenIff`). If the load is current, that is when
  `published_` is one behind a `newest` that is one lap ahead, and then C - 1
  whole items are skipped (`CurrentLoadSkipsIntactIff`, `SkipsAnIntactItem`). If
  it lags, it also happens with `published_` caught up (`SkipsOnAStaleLoad`), so
  a lag does not only make the target too old, as lines 181-184 have it.
- include/SPMCOverwriteQueue.h:137-138 answers Empty to an odd sequence. The
  consumer may then be a whole lap behind with newer items there to be read
  (`EmptyThoughLapped`; `EmptyIsExact` says when).
- README.md:141 says that workers join automatically on destruction. That is
  decided at the `notify_all`, which takes no mutex: the join can hang on a
  worker if and only if that worker, still holding the mutex, has then found its
  predicate false and is not yet asleep (`DestructorMayHangIff`;
  `DestructorCanHang` is a run). It sleeps on until a spurious wake or the notify
  of a task still running (`HungUntilWoken`).

## Model

| member | source | states |
|---|---|---|
| SpmcTheorems.RefinesBoundedFifo | include/SPMCLockFreeQueue.h:212-318 | every interleaving of one producer and any number of consumers replays as a legal run of a FIFO of at most C items, pushing at the sequence store and popping at the winning CAS; its queue and its popped items are those of the state |
| SpmcTheorems.StepRefines | include/SPMCLockFreeQueue.h:212-318 | one step keeps the invariant and is one legal FIFO operation, or changes nothing the FIFO shows |
| SpmcTheorems.DeliversExactlyOnce | include/SPMCLockFreeQueue.h:291-301 | each returned item is the one the FIFO popped at that position for that consumer, and no position is returned twice |
| SpmcTheorems.NothingLostAtRest | include/SPMCLockFreeQueue.h:291-301 | with no call in progress, every popped position has been returned to its claimant |
| SpmcInvariant.ApplyInv | include/SPMCLockFreeQueue.h:212-372 | every atomic step of either side keeps the slot, counter, register and log invariant |
| SpmcInvariant.RunInv | include/SPMCLockFreeQueue.h:212-372 | so does every run |
| SpmcInvariant.SequenceAt | include/SPMCLockFreeQueue.h:23-28 | what a slot shows for any position up to the next one: t when free, t-C+1 when the previous lap is unreleased, h+1 while h is full or claimed, more once h is released |
| SpmcInvariant.StoreSequenceSlots | include/SPMCLockFreeQueue.h:227-229 | a publication finds the position one lap back released and the ring not full |
| SpmcInvariant.CasSuccessInv | include/SPMCLockFreeQueue.h:291-294 | a winning CAS claims a published position, for exactly one consumer |
| SpmcInvariant.ReleaseInv | include/SPMCLockFreeQueue.h:297-298 | storing h+C keeps the invariant: the slot is then free for position h+C and the other slots are as they were |
| SpmcInvariant.ReleasedSequence | include/SPMCLockFreeQueue.h:298 | from the release of h on its slot shows h+C or more |
| SpmcTheorems.SlotStateUnique | include/SPMCLockFreeQueue.h:23-28 | each slot is in exactly one of the states Free(p), Full(p), Claimed(p, c), decided by its sequence, for every C >= 2 |
| SpmcTheorems.ConsumerLoadIsExact | include/SPMCLockFreeQueue.h:283-315 | for any stale h the loaded sequence is h+1, below it or above it exactly when h is unreleased, unpublished with the queue empty, or already released |
| SpmcTheorems.NulloptMeansEmpty | include/SPMCLockFreeQueue.h:306-309 | the load that makes try_pop answer nullopt is one at which head equals the number published; and the other way round |
| SpmcTheorems.ProducerLoadIsExact | include/SPMCLockFreeQueue.h:215-223 | the producer reads t or t-C+1, the latter exactly while position t-C is unreleased, and never more than t |
| SpmcTheorems.RefusedThoughNotFullIff | include/SPMCLockFreeQueue.h:222-223 | try_emplace is refused with fewer than C items queued if and only if position t-C has been claimed and is still held; with C queued it is always refused |
| SpmcTheorems.RefusedMeansFull | include/SPMCLockFreeQueue.h:222-223 | with no pop in progress try_emplace is refused if and only if C items are queued |
| SpmcScenarios.RefusedWhileEmpty | include/SPMCLockFreeQueue.h:222-223 | a run in which try_emplace is refused although head equals tail |
| SpmcScenarios.HeadPassesTail | include/SPMCLockFreeQueue.h:229-231 | a run in which head is one past tail, so that tail minus head is not the size |
| SpmcScenarios.SizeApproxExceedsCapacity | include/SPMCLockFreeQueue.h:381-385 | a run in which a load of head and a later load of tail differ by more than the capacity, without a wrap |
| SpmcTheorems.HeadPassesTailIff | include/SPMCLockFreeQueue.h:229-231 | at one instant head exceeds tail, then by one, if and only if the last item published is claimed and its tail store is to come; otherwise tail minus head is at most C |
| SpmcTheorems.SizeApproxWrapsIff | include/SPMCLockFreeQueue.h:381-385 | with head loaded first and tail any number of steps later, the difference wraps if and only if head had passed tail and tail has not moved since; it exceeds C at most by the claims in between |
| SpmcScenarios.AmbiguousAtOne | include/SPMCLockFreeQueue.h:86-88 | on a ring of one slot a reachable slot is both Full(0) and Free(1), and the next emplace constructs over a live item |
| SpmcTheorems.StorageIsSafe | include/SPMCLockFreeQueue.h:141-153 | no step constructs over an object, moves from or destroys raw storage, or touches a slot under construction |
| SpmcTheorems.WalkFindsAll | include/SPMCLockFreeQueue.h:180-189 | at rest the destructor finds every position of [head, tail) full and live |
| SpmcTheorems.DestroyedExactlyOnce | include/SPMCLockFreeQueue.h:180-189 | pops and the destructor together destroy every constructed object exactly once |
| SpmcTheorems.RestIsRaw | include/SPMCLockFreeQueue.h:180-189 | a slot the destructor does not visit holds no object |
| SpmcBlocking.NoConsumerLosesWakeup | include/SPMCLockFreeQueue.h:338-345 | a consumer asleep on position h sleeps on an empty queue, or the notify_all for h is still to come |
| SpmcBlocking.NotifyAllReachesAll | include/SPMCLockFreeQueue.h:232-236 | that notify_all wakes it, and its wait then sees a changed value |
| SpmcBlocking.StrandedExactlyByMisdirection | include/SPMCLockFreeQueue.h:297-300 | a step strands the producer asleep on a released slot if and only if it is the notify_one of that very release and wakes a consumer |
| SpmcBlocking.LastNotify | include/SPMCLockFreeQueue.h:297-300 | the release the producer sleeps for has one notify_one, made by one consumer, and came after the producer fell asleep |
| SpmcBlocking.NoRivalNoStranding | include/SPMCLockFreeQueue.h:297-300 | a step with no consumer asleep on that slot since before the release strands nobody |
| SpmcBlocking.NoRivalsNoStranding | include/SPMCLockFreeQueue.h:247-267 | nor does a whole run of such steps |
| SpmcBlocking.RivalMayStrand | include/SPMCLockFreeQueue.h:297-300 | wherever a consumer asleep since before the release still sleeps at that notify, waking it is possible and strands the producer |
| SpmcBlocking.NoRivalWakesProducer | include/SPMCLockFreeQueue.h:297-300 | where none does, that notify wakes the producer and nobody else |
| SpmcBlocking.AloneAtReleasesNoStranding | include/SPMCLockFreeQueue.h:297-300 | over a run in which no consumer sleeps on the slot of a sleeping producer when it is released, the producer is never stranded |
| SpmcScenarios.ProducerCanBeStranded | include/SPMCLockFreeQueue.h:247-372 | a run of emplace_wait and pop_wait on capacity 2 that ends with an empty queue, a free slot and everyone asleep |
| SpmcBlocking.RetriesBoundedByClaims | include/SPMCLockFreeQueue.h:275-317 | a pop retries at most once per position its first read was stale by and per claim others complete meanwhile |
| SpmcBlocking.RegisterMoves | include/SPMCLockFreeQueue.h:291-315 | each retry moves h strictly forward; head moves only by claims |
| SpmcWords.WordVerdictExact | include/SPMCLockFreeQueue.h:284-307 | the wrapped tests agree with = and < if and only if the distance fits a signed 64-bit word |
| SpmcWords.ConsumerTestOnWords | include/SPMCLockFreeQueue.h:283-311 | hence they classify right in every reachable state while the copy of head is up to date or published - h + C is at most 2^63 + 1 |
| SpmcWords.CasOnWords | include/SPMCLockFreeQueue.h:291-294 | the CAS on words succeeds if and only if head equals h, for every lag below 2^64 |
| SpmcWords.ProducerTestOnWords | include/SPMCLockFreeQueue.h:220-222 | the producer's equality test on words is exact however many positions have been used |
| SpmcWords.ConsumerWaitOnWords | include/SPMCLockFreeQueue.h:345 | the compare inside wait on words is the compare of the numbers, while at most 2^64 - 2C positions have been published past h |
| SpmcWords.ProducerWaitOnWords | include/SPMCLockFreeQueue.h:256 | the compare inside wait on words is exact however many positions have been used |
| SpmcScenarios.StaleCopyLooksEmpty | include/SPMCLockFreeQueue.h:306-309 | a run of 2^63 + 2 publications after which a copy of head that is 0 is taken for an empty queue while an item is queued |
| SpmcWords.MaskOnWords | include/SPMCLockFreeQueue.h:282 | masking the wrapped position gives the slot of the unbounded one |
| SpmcWords.SequenceBounds | include/SPMCLockFreeQueue.h:283-284 | how far the sequence of a slot can be from h + 1 |
| Ring.SlotIsMod | include/SPMCLockFreeQueue.h:282 | the slot of a position is its remainder modulo C |
| Ring.SlotInjective | include/SPMCLockFreeQueue.h:86-94 | positions less than C apart have different slots |
| Ring.WindowCovers | include/SPMCLockFreeQueue.h:86-94 | every slot is used by some position of any C consecutive ones |
| Ring.MaskIsSlot | include/SPMCLockFreeQueue.h:216 | for a power of two, p & (C - 1), computed bit by bit, is that slot |
| Ring.CapacityIsLeastPowerOfTwo | include/SPMCLockFreeQueue.h:86-94 | a capacity is accepted if and only if it is between 2 and the limit, and becomes the least power of two that holds it |
| Ring.CapacityExponent | include/SPMCOverwriteQueue.h:73-82 | the same, with the exponent as a witness, for any of the three limits |
| Ring.SingleBitIffPowerOfTwo | include/SPSCLockFreeQueue.h:40-42 | has_single_bit holds exactly of the powers of two |
| SpmcQueue.Queue.Of | include/SPMCLockFreeQueue.h:169-178 | sequence i in slot i, all storage raw: the initial state of the model |
| SpmcQueue.Queue.Create | include/SPMCLockFreeQueue.h:169-178 | throws exactly on the capacities not accepted; else the ring is in its initial state with the least power of two |
| SpmcQueue.Queue.SlotIndex | include/SPMCLockFreeQueue.h:216 | the masked index is the slot, and in bounds |
| SpmcQueue.Queue.LoadTail | include/SPMCLockFreeQueue.h:215 | loads tail_; a step of the model |
| SpmcQueue.Queue.LoadProducerSequence | include/SPMCLockFreeQueue.h:220-223 | loads the slot's sequence and branches on it |
| SpmcQueue.Queue.CompareProducerSequence | include/SPMCLockFreeQueue.h:256-257 | the compare inside wait: sleep on equal, else reload |
| SpmcQueue.Queue.WakeProducer | include/SPMCLockFreeQueue.h:256 | a spurious wake inside wait |
| SpmcQueue.Queue.BeginConstruct | include/SPMCLockFreeQueue.h:225 | starts placement-new in the slot found free |
| SpmcQueue.Queue.EndConstruct | include/SPMCLockFreeQueue.h:225 | finishes it: the item is live |
| SpmcQueue.Queue.StoreProducerSequence | include/SPMCLockFreeQueue.h:229 | publishes: stores t + 1 |
| SpmcQueue.Queue.StoreNewTail | include/SPMCLockFreeQueue.h:231 | stores tail_, which no pop reads |
| SpmcQueue.Queue.WakeAllWaiters | include/SPMCLockFreeQueue.h:236 | wakes every consumer asleep on this slot and no one else |
| SpmcQueue.Queue.LoadHead | include/SPMCLockFreeQueue.h:275 | relaxed load of head_: any value up to the current one |
| SpmcQueue.Queue.LoadConsumerSequence | include/SPMCLockFreeQueue.h:283-309 | loads the slot's sequence and takes the branch of the unsigned difference |
| SpmcQueue.Queue.WinCas | include/SPMCLockFreeQueue.h:291-294 | claims position h for this consumer |
| SpmcQueue.Queue.FailCas | include/SPMCLockFreeQueue.h:291-304 | a lost or spurious CAS: h takes the value read |
| SpmcQueue.Queue.ReloadHead | include/SPMCLockFreeQueue.h:313 | reload of a stale h |
| SpmcQueue.Queue.CompareConsumerSequence | include/SPMCLockFreeQueue.h:345 | the compare inside wait: sleep on equal, else reload |
| SpmcQueue.Queue.WakeConsumer | include/SPMCLockFreeQueue.h:345 | a spurious wake inside wait |
| SpmcQueue.Queue.MoveItemOut | include/SPMCLockFreeQueue.h:150 | moves the live item out; the slot keeps a husk |
| SpmcQueue.Queue.DestroyHusk | include/SPMCLockFreeQueue.h:151 | destroys the husk; the storage is raw |
| SpmcQueue.Queue.ReleaseSlot | include/SPMCLockFreeQueue.h:298 | stores h + C |
| SpmcQueue.Queue.WakeOneWaiter | include/SPMCLockFreeQueue.h:300 | wakes one thread asleep on the slot since before the release, if there is one, and returns the item |
| SpmcQueue.Queue.ChooseWaiter | include/SPMCLockFreeQueue.h:300 | a notify_one always has somebody it may wake, or may wake nobody; a permitted wish is honoured |
| SpmcQueue.Queue.Perform | include/SPMCLockFreeQueue.h:212-372 | takes a step of any thread if that thread is ready for it: exactly the step of the model, logged |
| SpmcQueue.Queue.LetOthersRun | include/SPMCLockFreeQueue.h:212-372 | takes all the steps of other threads in a slice, in order, and no others; this thread stays where it is, except for being woken |
| SpmcQueue.Queue.TryEmplace | include/SPMCLockFreeQueue.h:212-238 | true: exactly this item was published; false: nothing was, and at the load of the sequence, the last step of the call, position t-C was unreleased; whatever other threads do between its steps |
| SpmcQueue.Queue.EmplaceWait | include/SPMCLockFreeQueue.h:244-267 | done: exactly this item was published; not done: the others have taken every step of the schedule, and the producer sleeps on the item |
| SpmcQueue.Queue.WaitStep | include/SPMCLockFreeQueue.h:252-262 | one step of the wait loop, nearer to the free slot or to sleep |
| SpmcQueue.Queue.TryPop | include/SPMCLockFreeQueue.h:274-318 | some: exactly one position was claimed by this call and its published item returned; none: nothing was claimed, at the last load of the sequence the queue was empty, and everything published before the call has been claimed |
| SpmcQueue.Queue.PopWait | include/SPMCLockFreeQueue.h:330-372 | some: as for try_pop; otherwise nothing was claimed, the others have taken every step of the schedule, and the consumer sleeps |
| SpmcQueue.Queue.PopStep | include/SPMCLockFreeQueue.h:281-316 | one turn of the loop: claims, finds empty, or comes strictly nearer to one of these unless the CAS fails spuriously |
| SpmcQueue.Queue.Claim | include/SPMCLockFreeQueue.h:275-316 | the loop up to the winning CAS |
| SpmcQueue.Queue.Take | include/SPMCLockFreeQueue.h:296-301 | after the CAS: the published item is returned and the slot released |
| SpmcQueue.Queue.DestroyRemaining | include/SPMCLockFreeQueue.h:185-189 | the destructor's loop destroys what the walk finds, each object live at that moment |
| SpmcQueue.Queue.Teardown | include/SPMCLockFreeQueue.h:180-191 | after it every published item has been destroyed exactly once and no storage holds an object |
| OverwriteInvariant.ApplyInv | include/SPMCOverwriteQueue.h:130-253 | every step of the producer, of a consumer or of the clock keeps the slot, reader and accounting invariant |
| OverwriteInvariant.RunInv | include/SPMCOverwriteQueue.h:130-253 | so does every run |
| OverwriteInvariant.Shows | include/SPMCOverwriteQueue.h:33-38 | a slot shows position p exactly while fewer than p + C positions have been marked; odd exactly while it is being written |
| OverwriteInvariant.LoadAgainOk | include/SPMCOverwriteQueue.h:152-157 | an unchanged second load means the copy is the whole item of that position, still in the ring |
| OverwriteInvariant.LoadSequenceOk | include/SPMCOverwriteQueue.h:135-144 | the first load leaves the reader in a consistent state in each of its four branches |
| OverwriteInvariant.LoadPublishedOk | include/SPMCOverwriteQueue.h:185-201 | the recovery moves the cursor strictly forward to a position already started |
| OverwriteTheorems.SequenceNeverRepeats | include/SPMCOverwriteQueue.h:33-38 | once a slot's sequence has changed it never has that value again, although it steps down from 2p+1 to 2p |
| OverwriteTheorems.OkIsNeverTorn | include/SPMCOverwriteQueue.h:130-158 | with words copied singly on both sides, in any order and interleaved at will, Ok comes only with the whole item published at that position |
| OverwriteTheorems.LossIsAccounted | tests/test_spmc_overwrite_queue.cpp:304-310 | received plus missed is the distance moved; positions received are strictly increasing, each with its own item; the cursor is at most one past the writes started |
| OverwriteTheorems.RecoveryIsExact | include/SPMCOverwriteQueue.h:185-201 | for any value the load of published_ returns up to the current one, a recovery strictly advances, not past the newest started; it skips only overwritten positions unless it falls back to newest, when each skipped position is overwritten or whole, the whole ones being among the last C-1 |
| OverwriteTheorems.LosesOnlyOverwrittenIff | include/SPMCOverwriteQueue.h:178-194 | "loses only what was genuinely overwritten" holds if and only if it does not fall back with the position before newest still in the ring |
| OverwriteTheorems.CurrentLoadSkipsIntactIff | include/SPMCOverwriteQueue.h:189-194 | with a current load that happens if and only if published_ is one behind a newest exactly one lap ahead, and then C positions are skipped of which C-1 are whole |
| OverwriteTheorems.IntactIsReadable | include/SPMCOverwriteQueue.h:33-38 | a position called whole is one whose slot shows it and holds its item |
| OverwriteTheorems.EmptyIsExact | include/SPMCOverwriteQueue.h:135-142 | Empty if and only if the position is not yet stable in the ring or its slot is being rewritten |
| OverwriteScenarios.EmptyThoughLapped | include/SPMCOverwriteQueue.h:137-138 | a run in which a consumer a whole lap behind is answered Empty |
| OverwriteScenarios.SkipsAnIntactItem | include/SPMCOverwriteQueue.h:193-194 | a run in which the recovery skips an item still whole in the ring |
| OverwriteScenarios.SkipsOnAStaleLoad | include/SPMCOverwriteQueue.h:181-184 | a run in which a lagging load of published_ skips an item still whole, although published_ has caught up |
| OverwriteTheorems.StalenessBound | README.md:123-127 | with publishes at most d apart, an item answered Ok was begun at most C * d before the validating load |
| OverwriteTheorems.MarksAreTimes | README.md:123-127 | the time noted for position p is the time that had passed in the run when the producer, having taken p, stored the odd sequence |
| OverwriteTheorems.ClockIsElapsed | README.md:123-127 | the clock shows the time that has passed in the run |
| OverwriteTheorems.FreshConsumerIsLossless | include/SPMCOverwriteQueue.h:263-265 | a new handle starts within one lap if and only if the published_ it read was |
| OverwriteTheorems.GatedStepIsLossless | include/SPMCOverwriteQueue.h:130-158 | one step of a producer gated on this consumer leaves it unlapped |
| OverwriteTheorems.GatedConsumerLosesNothing | include/SPMCOverwriteQueue.h:130-158 | so over a run it is never lapped, misses nothing and has received every item from its start to its cursor, in order |
| OverwriteTheorems.LosslessReceivedAll | include/SPMCOverwriteQueue.h:156-165 | having missed nothing, it received each position of its range |
| OverwriteQueue.Queue.Of | include/SPMCOverwriteQueue.h:213-217 | all sequences 0: the initial state of the model |
| OverwriteQueue.Queue.Create | include/SPMCOverwriteQueue.h:73-82 | throws exactly on the capacities not accepted, up to 2^62; else the initial state with the least power of two |
| OverwriteQueue.Queue.BeginPublish | include/SPMCOverwriteQueue.h:237-238 | takes the next position |
| OverwriteQueue.Queue.StoreOdd | include/SPMCOverwriteQueue.h:242 | marks the slot in progress |
| OverwriteQueue.Queue.WriteWord | include/SPMCOverwriteQueue.h:246 | copies one word in, any of those left |
| OverwriteQueue.Queue.StoreEven | include/SPMCOverwriteQueue.h:250 | marks the slot stable |
| OverwriteQueue.Queue.SetPublished | include/SPMCOverwriteQueue.h:252 | stores published_ |
| OverwriteQueue.Queue.NewConsumer | include/SPMCOverwriteQueue.h:263-265 | a handle one past a possibly stale published_ |
| OverwriteQueue.Queue.BeginRead | include/SPMCOverwriteQueue.h:130-131 | enters try_read |
| OverwriteQueue.Queue.LoadFirst | include/SPMCOverwriteQueue.h:135-144 | the first load and its four branches |
| OverwriteQueue.Queue.CopyOut | include/SPMCOverwriteQueue.h:146 | copies one word out, any of those left |
| OverwriteQueue.Queue.LoadSecond | include/SPMCOverwriteQueue.h:152-157 | the validating load: Ok, or a lap |
| OverwriteQueue.Queue.Recover | include/SPMCOverwriteQueue.h:185-201 | loads published_, possibly an older value, and repositions the cursor |
| OverwriteQueue.Queue.PublishItem | include/SPMCOverwriteQueue.h:236-253 | always succeeds: exactly this item gets the next position |
| OverwriteQueue.Queue.CopyIn | include/SPMCOverwriteQueue.h:246 | the word-by-word copy in, in any order, interleaved with the consumers |
| OverwriteQueue.Queue.LetOthersRun | include/SPMCOverwriteQueue.h:130-253 | takes all the steps of other threads in a slice, in order, and no others; this thread stays where it is |
| OverwriteQueue.Queue.Attempt | include/SPMCOverwriteQueue.h:130-158 | try_read up to its answer or the load of published_: Ok with the whole item; Empty only if the load found nothing to read; else lapped, on the position a load of the slot showed |
| OverwriteQueue.Queue.TryRead | include/SPMCOverwriteQueue.h:130-158 | Ok, Empty and Lapped each with what they return and change, whatever other threads do; Empty only if its load found nothing to read; Lapped with the exact new cursor for any lag of the load of published_, and without lag only overwritten positions skipped, up to the one exception; while the producer stands still, exactly which answer |
| OverwriteQueue.Queue.Reposition | include/SPMCOverwriteQueue.h:185-201 | for any lag the cursor goes to published - lag - C + 1 if that is ahead and else to the position the slot showed; without lag every skipped position is overwritten unless published + 1 = newest = pos + C |
| OverwriteQueue.Queue.CopyAll | include/SPMCOverwriteQueue.h:146 | the word-by-word copy out, in any order, interleaved with the producer |
| OverwriteQueue.Queue.Validate | include/SPMCOverwriteQueue.h:151-157 | an unchanged sequence hands out the item published at the position |
| OverwriteQueue.Queue.DrainLaps | include/SPMCOverwriteQueue.h:130-201 | with the producer stopped, Lapped until the position is in the ring again; at most once, and to the oldest readable position, on current loads |
| OverwriteQueue.Queue.DrainRest | include/SPMCOverwriteQueue.h:130-158 | from a readable position: Ok for each up to W, then Empty, whatever the other consumers do |
| OverwriteQueue.Queue.DrainEmpty | include/SPMCOverwriteQueue.h:141-142 | at the end of the stream: Empty for every further read, and nothing changes |
| OverwriteQueue.Queue.Drain | include/SPMCOverwriteQueue.h:130-201 | with the producer stopped at W and the other consumers moving: Lapped if and only if pos + C <= W, then Ok for exactly first..W in order, then Empty on every later read; on current loads Lapped once at most and first = max(pos, W-C+1) |
| BroadcastTheorems.ApplyInv | include/SPMCBroadcastQueue.h:121-238 | every step keeps cached_min <= cursor <= tail <= cached_min + C, the slots and the logs consistent |
| BroadcastTheorems.RunInv | include/SPMCBroadcastQueue.h:121-238 | so does every run |
| BroadcastTheorems.ScanInv | include/SPMCBroadcastQueue.h:220-226 | each step of a cursor-by-cursor scan keeps the running minimum a lower bound of the cursors loaded, although they move under it |
| BroadcastTheorems.ReadableSlot | include/SPMCBroadcastQueue.h:126-129 | a readable position is whole in its slot, which is not the one the producer may assign |
| BroadcastTheorems.EveryoneSeesEverything | include/SPMCBroadcastQueue.h:121-136 | each consumer has seen exactly the items published before its cursor |
| BroadcastTheorems.ReadsAndWritesAreDisjoint | include/SPMCBroadcastQueue.h:129-134 | no slot is assigned while a callback reads it |
| BroadcastTheorems.CallbackSeesItsItem | include/SPMCBroadcastQueue.h:114-118 | for a whole callback the slot holds the item it was called for |
| BroadcastTheorems.NobodyFurtherBehind | include/SPMCBroadcastQueue.h:192-194 | no cursor is more than C behind, so the naive gate is shut if and only if the slowest is exactly C behind |
| BroadcastTheorems.SpaceAtTheWrite | include/SPMCBroadcastQueue.h:207-214 | when the slot is assigned every cursor is less than C behind: a stale minimum never wrongly reports space |
| BroadcastTheorems.MinimumComesFromAnInstant | include/SPMCBroadcastQueue.h:221-226 | the running minimum is t - C only if at the load of that value the slowest cursor was exactly C behind |
| BroadcastTheorems.MinimumRemembersInstant | include/SPMCBroadcastQueue.h:220-226 | and it remembers that over the rest of the scan |
| BroadcastTheorems.GateStaysOpen | include/SPMCBroadcastQueue.h:207-214 | under a scan, whatever the consumers do, an open naive gate stays open |
| BroadcastTheorems.RefusedOnlyIfFullAtStart | include/SPMCBroadcastQueue.h:228-229 | so a refusal implies that the slowest cursor was exactly C behind when the scan began |
| BroadcastTheorems.RefusalHasAFullInstant | include/SPMCBroadcastQueue.h:228-229 | a refusal implies an instant of the scan at which the slowest cursor was exactly C behind |
| BroadcastQueue.Queue.Of | include/SPMCBroadcastQueue.h:169-175 | default items and zero cursors: the initial state of the model |
| BroadcastQueue.Queue.Create | include/SPMCBroadcastQueue.h:69-76 | throws exactly on the capacities not accepted; else the initial state with the least power of two |
| BroadcastQueue.Queue.BeginPublish | include/SPMCBroadcastQueue.h:198-220 | loads tail_ and tests the cached minimum |
| BroadcastQueue.Queue.ScanOne | include/SPMCBroadcastQueue.h:221-229 | loads one cursor; the last one closes or opens the gate |
| BroadcastQueue.Queue.BeginAssign | include/SPMCBroadcastQueue.h:232 | starts the assignment |
| BroadcastQueue.Queue.EndAssign | include/SPMCBroadcastQueue.h:232 | finishes it |
| BroadcastQueue.Queue.StoreNewTail | include/SPMCBroadcastQueue.h:236 | publishes |
| BroadcastQueue.Queue.LoadCursor | include/SPMCBroadcastQueue.h:122 | loads the consumer's own cursor |
| BroadcastQueue.Queue.CheckTail | include/SPMCBroadcastQueue.h:126-127 | loads tail_: nothing new, or the callback starts |
| BroadcastQueue.Queue.FinishCallback | include/SPMCBroadcastQueue.h:129 | the callback ends with the item at the cursor |
| BroadcastQueue.Queue.AdvanceCursor | include/SPMCBroadcastQueue.h:134 | stores the cursor |
| BroadcastQueue.Queue.LetOthersRun | include/SPMCBroadcastQueue.h:121-238 | takes all the steps of other threads in a slice, in order, and no others; this thread stays where it is |
| BroadcastQueue.Queue.TryPublish | include/SPMCBroadcastQueue.h:197-238 | true: exactly this item is published; false: nothing is, and at some instant of the call the slowest cursor was exactly C behind; true whenever the naive gate is open at the call, and when run alone only then |
| BroadcastQueue.Queue.TryConsume | include/SPMCBroadcastQueue.h:121-147 | the item at the cursor, certainly if one was published before the call; else nothing changes; and exactly the steps of both sides, in their order |
| Agreement.GatesAgree | include/SPMCBroadcastQueue.h:220-237 | an open broadcast gate is the gate assumed of the overwriting producer |
| Agreement.OverwriteAgreesWithBroadcast | include/SPMCOverwriteQueue.h:130-158 | so gated, an overwrite consumer is never lapped, misses nothing and has received what a broadcast consumer at the same cursor has seen |
| PoolTheorems.ApplyInv | include/ThreadPool.h:45-118 | every step of a worker, a client, a running task or the destructor keeps the mutex, queue, log and wakeup invariant |
| PoolTheorems.RunInv | include/ThreadPool.h:45-118 | so does every run |
| PoolTheorems.EnqueueIsFaithful | include/ThreadPool.h:81-105 | for every client and every running task, the tasks it hands to enqueue are the tasks that enter the queue from it, once each and in order, but for a call still in progress |
| PoolTheorems.RunKeepsThreads | include/ThreadPool.h:45-50 | every state of a pool asked for n threads has n workers, or one if n is 0 |
| PoolTheorems.MutexAndPopAreSafe | include/ThreadPool.h:55-66 | one holder of the mutex at a time among workers and clients, and the pop finds a task |
| PoolTheorems.OneWorkerStep | include/ThreadPool.h:55-66 | any worker's step keeps what each worker knows of the queue right while it holds the mutex |
| PoolTheorems.RunsEachTaskOnceInOrder | include/ThreadPool.h:50-76 | tasks are popped in the order enqueued and each popped one runs once |
| PoolTheorems.NoTaskIsForgotten | include/ThreadPool.h:97-105 | a non-empty queue has a worker that will look at it again, or a notify on its way |
| PoolTheorems.WakeStep | include/ThreadPool.h:57-63 | and every step keeps that |
| PoolTheorems.SleepersAreCalled | include/ThreadPool.h:97-105 | while some worker sleeps, the workers on their way to the queue and the notifies under way are at least as many as the tasks waiting; a worker busy with a task does not count |
| PoolTheorems.ShutdownDrains | include/ThreadPool.h:61-63 | when every worker has returned the queue is empty and everything enqueued has run, also what tasks enqueued during the shutdown |
| PoolTheorems.NotifiedWorkerStaysUp | include/ThreadPool.h:57-63 | a worker neither asleep nor about to be, after stop and notify_all, never sleeps again, in any run |
| PoolTheorems.DestructorMayHangIff | include/ThreadPool.h:110-118 | at the notify_all: some continuation leaves worker w asleep if and only if w has found its predicate false and is not asleep yet, and then it holds the mutex |
| PoolTheorems.HungUntilWoken | include/ThreadPool.h:57-59 | a step ends that sleep if and only if it is a spurious wake or the notify_one of a running task that enqueues |
| PoolTheorems.DestructorCanHang | include/ThreadPool.h:114-117 | a run with one worker and no task in which that happens, after which only a spurious wake is possible |
| ThreadPool.Pool.constructor | include/ThreadPool.h:45-50 | as many workers as asked for, or one for 0, and an empty queue: the initial state of the model |
| ThreadPool.Pool.CallEnqueue | include/ThreadPool.h:81-95 | a client enters enqueue |
| ThreadPool.Pool.LockForClient | include/ThreadPool.h:98 | takes the free mutex |
| ThreadPool.Pool.PushForClient | include/ThreadPool.h:103-104 | pushes at the back and unlocks |
| ThreadPool.Pool.NotifyForClient | include/ThreadPool.h:105 | wakes one sleeping worker, if any, after unlocking |
| ThreadPool.Pool.LockForWorker | include/ThreadPool.h:55 | takes the free mutex |
| ThreadPool.Pool.EvaluatePredicate | include/ThreadPool.h:57-59 | stop requested or queue not empty |
| ThreadPool.Pool.GoToSleep | include/ThreadPool.h:57 | releases the mutex and sleeps, atomically |
| ThreadPool.Pool.WakeUp | include/ThreadPool.h:57 | a spurious wake |
| ThreadPool.Pool.TakeTask | include/ThreadPool.h:61-67 | returns if told to stop with the queue empty, else pops |
| ThreadPool.Pool.Return | include/ThreadPool.h:61-63 | leaves the loop, unlocking |
| ThreadPool.Pool.PopFront | include/ThreadPool.h:65-67 | pops the front task and unlocks |
| ThreadPool.Pool.CallNested | include/ThreadPool.h:70 | a running task enters enqueue with this task in hand |
| ThreadPool.Pool.LockForNested | include/ThreadPool.h:98 | takes the free mutex, the task still in hand |
| ThreadPool.Pool.PushForNested | include/ThreadPool.h:103-104 | pushes the task in hand at the back and unlocks |
| ThreadPool.Pool.NotifyForNested | include/ThreadPool.h:105 | wakes one sleeping worker, if any |
| ThreadPool.Pool.FinishTask | include/ThreadPool.h:70 | the task has run |
| ThreadPool.Pool.BeginDestroy | include/ThreadPool.h:110 | the destructor starts with no client in enqueue |
| ThreadPool.Pool.StopOne | include/ThreadPool.h:114-116 | requests one worker's stop, without the mutex |
| ThreadPool.Pool.NotifyEveryone | include/ThreadPool.h:117 | wakes every sleeping worker, without the mutex |
| ThreadPool.Pool.Enqueue | include/ThreadPool.h:81-108 | done: this client has pushed exactly this task, once, and its notify_one, the last step, woke a sleeper if there was any; not done: it has pushed nothing, the others have taken every step of the schedule, and one of them holds the mutex |
| ThreadPool.Pool.WaitForMutex | include/ThreadPool.h:98 | the others take their steps until the mutex is free, or all of them |
| ThreadPool.Pool.WorkerLoop | include/ThreadPool.h:50-77 | returns only after a step at which it was told to stop and the queue was empty, having run all it popped; else the others have taken every step of the schedule, and it sleeps, owing nothing, or waits for the mutex |
| ThreadPool.Pool.LetOthersRun | include/ThreadPool.h:45-118 | takes all the steps of other threads in a slice, in order, and no others; this thread stays where it is, except for being woken |
| ThreadPool.Pool.WorkerStep | include/ThreadPool.h:51-76 | each step of the loop comes strictly nearer to blocking or takes a task away, unless the running task enqueues |
| ThreadPool.Pool.Destroy | include/ThreadPool.h:110-118 | every stop flag set, then one notify_all |
| Spsc.IsBoundedFifo | include/SPSCLockFreeQueue.h:52-79 | the two-thread interleaving is a FIFO of at most C - 1 items: what was returned is a prefix of what was pushed |
| Spsc.AnswersAreExact | include/SPSCLockFreeQueue.h:52-79 | refused if and only if C - 1 items are queued at the load of head; nullopt if and only if none is at the load of tail |
| Spsc.AccessesAreDisjoint | include/SPSCLockFreeQueue.h:60-76 | the consumer moves out the oldest item from a slot the producer is not assigning |
| Spsc.FullTestIsExact | include/SPSCLockFreeQueue.h:56 | (t + 1) & mask == h compares the unbounded counts |
| Spsc.EmptyTestIsExact | include/SPSCLockFreeQueue.h:72 | h == t compares the unbounded counts |
| Spsc.RunInv | include/SPSCLockFreeQueue.h:52-79 | every run keeps the invariant |
| SpscQueue.Queue.Create | include/SPSCLockFreeQueue.h:36-43 | throws exactly unless the capacity is a power of two |
| SpscQueue.Queue.BeginEmplace | include/SPSCLockFreeQueue.h:53 | loads tail |
| SpscQueue.Queue.CheckFull | include/SPSCLockFreeQueue.h:54-58 | loads head: full, or go on |
| SpscQueue.Queue.BeginAssign | include/SPSCLockFreeQueue.h:60 | starts the assignment |
| SpscQueue.Queue.EndAssign | include/SPSCLockFreeQueue.h:60 | finishes it |
| SpscQueue.Queue.StoreNewTail | include/SPSCLockFreeQueue.h:61 | publishes at the masked next index |
| SpscQueue.Queue.BeginPop | include/SPSCLockFreeQueue.h:69 | loads head |
| SpscQueue.Queue.CheckEmpty | include/SPSCLockFreeQueue.h:70-74 | loads tail: empty, or go on |
| SpscQueue.Queue.TakeItem | include/SPSCLockFreeQueue.h:76 | moves out the oldest item |
| SpscQueue.Queue.StoreNewHead | include/SPSCLockFreeQueue.h:77 | frees the slot |
| SpscQueue.Queue.TryEmplace | include/SPSCLockFreeQueue.h:52-63 | true: exactly this item is pushed; false: nothing is, and C - 1 items were queued at the call; and exactly the steps of both threads, in their order |
| SpscQueue.Queue.TryPop | include/SPSCLockFreeQueue.h:68-79 | some: the oldest item, popped by this call; none: nothing is popped and the queue was empty at the call; and exactly the steps of both threads, in their order |
| SpscQueue.Queue.LetConsumerRun | include/SPSCLockFreeQueue.h:68-79 | takes all the steps of the consumer in a slice, in order, and no others |
| SpscQueue.Queue.LetProducerRun | include/SPSCLockFreeQueue.h:52-63 | takes all the steps of the producer in a slice, in order, and no others |

## Left out

- Weak memory: fences, acquire and release pairing, and the formal data race that the seqlock's payload copy admits.
- 64-bit wrap-around of the counters of the overwrite, broadcast and SPSC queues, including the bit `pos << 1` loses.
- Throwing element constructors, the logging of exceptions in workers, futures and packaged tasks.
- Fairness and progress of the operating system's scheduler; a blocking call whose finite schedule runs out is left asleep.
- Termination of the `ThreadPool` destructor's joins beyond the sleeping workers: a task that never returns, or that always enqueues another, keeps a worker from returning.
- An outside `enqueue` racing the destructor: the lifetime of the object forbids it.
- `backlog_approx` and `published_count`: documented hints, read without synchronisation. Of `size_approx`, hence of `empty`, only the difference of the two loads is treated, with both loads current.
- `try_pop_expected`, `to_string`, `QueueError`: a renaming of the answers of `try_pop`.
- Templates, concepts, perfect forwarding, alignment, allocation, `spin_hint` and back-off counters.
- Benchmarks, core pinning, clocks and latency statistics.
- SpmcQueue.Queue.EmplaceWait: does not say that the call returns, because a finite schedule may leave the producer asleep, or another thread's notify may strand it.
- SpmcQueue.Queue.TryPop: the number of turns its loop takes is bounded over runs in RetriesBoundedByClaims, not in the method; here the loop ends because the schedule is finite.
- SpmcQueue.Queue.Create: allocation of the slots always succeeds; InvalidArgument stands for the exception.
- OverwriteQueue.Queue.TryRead: items are sequences of words of one fixed length; a word is copied in one step. While the producer moves, the answer is not predicted, only what each answer means.
- OverwriteTheorems.StalenessBound: measures from the odd mark that begins a publish, with an abstract clock that advances only between steps.
- BroadcastQueue.Queue.TryConsume: the callback is a step that reads the slot and hands back its item; what else a callback does is not modelled.
- ThreadPool.Pool.WorkerLoop: tasks are values whose only modelled effect is to enqueue others.
- Spsc.IsBoundedFifo: a moved-from element is modelled as an empty cell, without its leftover value.

# DumbDistributedLog: a verified model

This project models the parts of DumbDistributedLog that keep redundant or
concurrent state, and proves what they guarantee over whole runs.

* **Ownership and leases.** `OwnershipModel` gives the replicated state machine
  as a value, `OwnershipMachine` the object that updates its four tables in
  place. `Topics` shows that the reverse index always agrees with the owner map
  and that every topic behaves as a register. `LeaseTable`, `LeaseLock`,
  `LeaseDuration`, `LocalExpiry`, `LeaseAudit` and `ClusterNode` cover leases:
  how long they last, id draws, commits and expiry sweeps interleaved on the
  proposing node, against plain expiring locks.
* **Storage and recovery.** `LogEntries` and `Storage` model the Raft log, its
  on-disk form, and the storage object with its two files. `Recovery` is a node
  that appends, applies, purges, sweeps and crashes: the saved state and the
  retained log come back, the applied position does not, and the log is applied
  again on top of its own effects. It says when a topic's owner survives that.
  `LeaseHistory`, `LeaseReplay` and `LeaseRecovery` say when leases do,
  `RecoveryWitnesses` has a run for each condition that shows it is needed, and
  `StorageRuns` performs every step of such a run on the storage object, so
  that the theorems are about the tables it holds.
* **Gossip.** `GossipClaims` models one coordinator's message handling and a
  network of any number of them as a convergent protocol.
* **Queues.** `TopicQueue` is the per-topic ring against an unbounded log,
  `RingRaces` the same ring with every step of pushes, reads and
  acknowledgements interleaved, `SpmcQueue` the drop-oldest queue read through
  consumer heads. `Subscribers` delivers entries to bounded channels,
  `TopicService` joins ring and subscribers, `TopicLimit` is topic creation
  under concurrency.
* **Timed state machines.** `CircuitBreaker` and `FailureDetector`.

`Words` holds 64- and 32-bit arithmetic as the release build performs it
(`+` wraps, `saturating_*` clamps) and the power-of-two masks.

Clock readings, hashed topic ids, the map iteration order, the entries a
blocked receiver takes and the id a proposer draws are parameters or
nondeterministic choices, so every statement holds for all of them.

## Where the code and its own documentation disagree

The model follows the code.

* `acquire_lease` of a cluster node is documented to fail when another node
  holds the key. It returns the other node's lease
  (`ClusterNode.AcquireReportsHolder`).
* `get_lease_info` is commented as checking expiry. It does not; `LeaseInfo`
  returns the entry the key points to, `LiveLease` is the checked form.
* Local expiry is commented as harmless because acquisition checks expiry. It is
  exactly when no live lease shares its key with a leftover expired entry
  (`LocalExpiry.SweepInvisibleExactly`); otherwise the sweep deletes the live
  lease (`LeaseAudit.SweepKillsLiveLease`).
* The count answered to an `ExpireLeases` command is documented as the number of
  expired leases. It is always zero (`Storage.Answer`).
* `validate` is not an invariant of its lease clauses; `LeaseAudit.AuditKeptExactly`
  names the two commands that spoil them.
* `DropOldest` discards the incoming entry, not the oldest one
  (`Subscribers.Offered`).
* The removal of disconnected subscribers is commented as safe under concurrent
  modification. The bounds check keeps it in range; which subscribers it removes
  is another matter (`Subscribers.SecondCleanupExactly`).

## Model

| member | source | states |
|---|---|---|
| Words.MaskIsModulo | src/topic_queue.rs:118-118 | masking with capacity minus one is reduction modulo a power-of-two capacity, for every word |
| OwnershipMachine.OwnershipState.Apply | src/cluster/ownership_machine.rs:199-323 | the in-place command application leaves exactly the state `OwnershipModel.Apply` describes |
| OwnershipMachine.OwnershipState.ExpiredKeys | src/cluster/ownership_machine.rs:413-420 | in whatever order the table is walked, the keys collected are those with an expired entry, once per such entry |
| OwnershipMachine.OwnershipState.ExpireStale | src/cluster/ownership_machine.rs:412-426 | the expiry loop leaves exactly the leases whose key has no expired entry, and counts expired entries, not removed ones |
| OwnershipModel.ExpireLeavesNothingExpired | src/cluster/ownership_machine.rs:309-321 | a second pass at the same time finds nothing and changes nothing |
| OwnershipMachine.OwnershipState.NextLeaseId | src/cluster/ownership_machine.rs:439-443 | the counter is handed out and advanced, wrapping at its last value |
| OwnershipMachine.OwnershipState.Acquire | src/cluster/ownership_machine.rs:447-482 | refusal exactly when the key's stored entry is unexpired, naming its owner; otherwise a grant under the next id that holds the key for exactly its duration in nanoseconds, or to the end of representable time |
| OwnershipMachine.OwnershipState.Validate | src/cluster/ownership_machine.rs:486-602 | which clause each answer means, in both directions, with the first failing clause deciding; where dangling and inconsistent leases are both stored either of the two is answered |
| OwnershipMachine.OwnershipState.ValidateLeases | src/cluster/ownership_machine.rs:489-537 | the lease loops answer for exactly the clause that fails first, dangling and inconsistent leases being one clause told apart by what is stored |
| OwnershipMachine.OwnershipState.ValidateTopics | src/cluster/ownership_machine.rs:539-599 | the ownership loops pass exactly when owner map and topic lists agree |
| Topics.ApplyKeepsAgreement | src/cluster/ownership_machine.rs:201-247 | every command keeps topic lists duplicate-free and equal to the owner map's inverse |
| Topics.ReachableListsAreExact | src/cluster/ownership_machine.rs:201-247 | after any command sequence each node's list enumerates exactly its topics, once each, so the ownership half of validate cannot fail |
| Topics.TopicsAreRegisters | src/cluster/ownership_machine.rs:201-247 | the owner of a topic after any log is what a single register with no tables would hold |
| Topics.ClaimErasesPast | src/cluster/ownership_machine.rs:201-215 | after a log that claims a topic, its owner does not depend on the starting state |
| LeaseTable.StepKeepsTable | src/cluster/ownership_machine.rs:252-321 | draws, commits, sweeps and local acquisitions all keep the lease table invariant |
| LeaseTable.OneLiveLeasePerKey | src/cluster/raft_cluster.rs:333-355 | from empty, under every interleaving: drawn and stored ids are distinct and below the counter, keys point at leases of their own, no key has two unexpired leases |
| LeaseTable.LeaseKeptExactly | src/cluster/ownership_machine.rs:252-321 | a lease is still its key's lease after a run if and only if no event of the run evicted it, and until then only its expiry changes |
| LeaseDuration.GrantLasts | src/cluster/ownership_machine.rs:260-287 | a committed grant at t for s seconds holds the key, for the node that asked, at exactly the times before t + s * 10^9 and before the last instant |
| LeaseDuration.LocalGrantLasts | src/cluster/ownership_machine.rs:447-482 | so does a local one |
| LeaseDuration.RenewalLasts | src/cluster/ownership_machine.rs:290-301 | a renewal is accepted exactly while the lease has not run out, and then the lease lasts its duration from there |
| LeaseDuration.RenewedGrantLasts | src/cluster/ownership_machine.rs:260-301 | from grant to renewal, the duration asked for at the grant counts again from a renewal in time |
| LeaseDuration.NextHolder | src/cluster/ownership_machine.rs:260-287 | the next node that asks gets the key exactly when that time is over |
| LeaseDuration.SweptExactly | src/cluster/ownership_machine.rs:412-426 | an expiry pass removes the lease of a key without leftovers exactly then |
| LeaseDuration.CounterFollowsGrants | src/cluster/ownership_machine.rs:283-287 | on a replica that draws nothing the counter is the least number above every id granted, as long as none is the last one |
| LeaseDuration.LastIdResetsCounter | src/cluster/ownership_machine.rs:283-287 | the last id throws the counter back to zero |
| LeaseLock.TableRefinesLocks | src/cluster/ownership_machine.rs:252-321 | over every run without a shadowed expiry the table names the same holder for every key as one expiring lock per key |
| LeaseLock.ExpiryMatchesLocksExactly | src/cluster/ownership_machine.rs:309-321 | an expiry pass does to the table what it does to the locks exactly when no live lease is shadowed by a leftover of its own key |
| LeaseLock.HoldersAgreeFromNowOn | src/cluster/ownership_machine.rs:260-268 | agreement at the clock is agreement at every later time |
| LocalExpiry.TwinsStayTwins | src/cluster/ownership_machine.rs:252-307 | replicas that differ only in expired entries grant the same acquisitions and show the same live leases for every later run of acquire, renew and release |
| LocalExpiry.SweepInvisibleExactly | src/cluster/raft_cluster.rs:439-458 | a local sweep is invisible to all such runs if and only if no live lease shares its key with an expired entry |
| LeaseAudit.AuditKeptExactly | src/cluster/ownership_machine.rs:489-537 | a table that passes the lease clauses still passes after a command if and only if the command is neither an acquisition over an expired lease nor a renewal that moves the expiry |
| LeaseAudit.SweepKillsLiveLease | src/cluster/ownership_machine.rs:412-426 | a run in which a sweep removes a lease that has nine seconds to live |
| LeaseAudit.BackwardsClockRevivesLease | src/cluster/ownership_machine.rs:290-301 | a renewal stamped in the past gives a key two unexpired leases |
| LeaseAudit.TwoProposersCollide | src/cluster/raft_cluster.rs:338-353 | two replicas that both propose draw the same id, and one key ends up pointing at the other key's lease |
| ClusterNode.AcquireReportsHolder | src/cluster/raft_cluster.rs:346-363 | whatever committed between draw and commit, the lease reported carries the drawn id exactly when the key was free; otherwise it is the other holder's |
| ClusterNode.Node.AcquireLease | src/cluster/raft_cluster.rs:333-364 | the whole call as draw, commit and read, whatever the node's other tasks and other commits do in between, with that outcome |
| LeaseAudit.CollisionBreaksExactly | src/cluster/ownership_machine.rs:252-287 | a grant leaves every key pointing at a lease of its own if and only if no other key points at the id it is given |
| LeaseAudit.RevivalBreaksExactly | src/cluster/ownership_machine.rs:290-301 | a renewal with any timestamp leaves a second unexpired lease behind exactly when it lifts a leftover over the time in question |
| ClusterNode.Node.ExpirationTick | src/cluster/raft_cluster.rs:451-463 | one tick of the background task is one sweep, keeps the table invariant, and a zero count means nothing changed |
| LogEntries.SerializationRoundTrip | src/cluster/types.rs:41-65 | disk to memory to disk is the identity; memory to disk to memory loses exactly membership payloads |
| LogEntries.LogStaysGapFree | src/cluster/storage.rs:456-520 | any run of appends at the end, truncations and purges leaves one gap-free index range |
| LogEntries.RangeReadIsConsecutive | src/cluster/storage.rs:686-711 | a range read of such a log returns every covered index of the range, consecutively |
| Storage.LogFileRestoresLog | src/cluster/storage.rs:200-268 | writing the log and loading it back restores every entry up to membership payloads |
| Storage.RaftStorage.WithPersistence | src/cluster/storage.rs:80-118 | a restart has the saved state and log, nothing applied and nothing dirty |
| Storage.Restart | src/cluster/storage.rs:80-118 | a crash and restart, before or after the first log write, keeps every log entry up to membership payloads, restores the state last saved and forgets the applied position |
| Storage.RaftStorage.TryGetLogEntries | src/cluster/storage.rs:686-711 | exactly the entries between the two bounds in index order, bound kind by bound kind and with the two bounds that wrap around; a panic exactly when start exceeds end |
| Storage.RaftStorage.AppendToLog | src/cluster/storage.rs:456-474 | all entries inserted under their index and the file brought up to date |
| Storage.RaftStorage.DeleteConflictLogsSince | src/cluster/storage.rs:476-497 | exactly the entries below the index remain, in memory and on disk |
| Storage.RaftStorage.PurgeLogsUpto | src/cluster/storage.rs:499-520 | exactly the entries above the index remain, and the applied position is overwritten |
| Storage.RaftStorage.ApplyToStateMachine | src/cluster/storage.rs:530-618 | the state after the batch, what each answer tells of the state its entry met, and when the state file is written |
| Storage.AnswersTell | src/cluster/storage.rs:547-588 | an acquisition is answered with the lease just granted or the one in its way, a topic command with the owner a register would hold, a renewal with the lease and its new end, or as it was once run out, an unknown id with none, a release with none, an expiry command with zero |
| Storage.RaftStorage.Respond | src/cluster/storage.rs:547-588 | the answer to each command; the second expiry pass behind an `ExpireLeases` answer changes nothing and counts zero |
| StorageRuns.Perform | src/cluster/storage.rs:456-618 | append, truncate, purge, apply, sweep, draw and restart on the storage object are the steps of the same name of `Recovery.Node` |
| StorageRuns.ApplyNext | src/cluster/storage.rs:530-618 | reading the next entries by range and applying them is one batch step, answered entry by entry |
| StorageRuns.Execute | src/cluster/storage.rs:80-118 | after any run of calls and crashes on the object, its owner map is that of the committed log once caught up, and so are its lease tables under the conditions of `LeasesRecover` |
| Recovery.TopicRecovers | src/cluster/storage.rs:499-618 | after any run of appends, batches, truncations, purges, sweeps, draws and crashes, a topic that each crash left with a retained claim, or with a last owner that nothing retained takes it from, has the owner of applying the committed log once |
| Recovery.RecoveryIsExact | src/cluster/storage.rs:530-618 | with the log kept whole no condition is needed: a node that has caught up with its high-water mark has the owner map of applying the committed log once from empty |
| Recovery.StepKeepsTrack | src/cluster/storage.rs:90-118 | each of those steps, a crash included, keeps the recovery invariant of each topic |
| Recovery.ReplayKeepsOwnerExactly | src/cluster/ownership_machine.rs:217-247 | where nothing retained claims the topic or gives it back, replaying keeps the last owner if and only if nothing retained takes the topic from it |
| RecoveryWitnesses.ReplayShowsPastOwner | src/cluster/storage.rs:537-543 | a run with a crash in which a node that has not caught up answers with an earlier owner |
| RecoveryWitnesses.PurgedReplayDiverges | src/cluster/storage.rs:499-520 | a run with a purge and a crash that ends with the wrong owner |
| RecoveryWitnesses.MidReplayPurgeDiverges | src/cluster/storage.rs:499-520 | a purge in the middle of a replay does the same to an owner nothing in the log takes the topic from |
| LeaseHistory.EntryOverTime | src/cluster/ownership_machine.rs:252-301 | along a log in order an entry once acquired and later stored was stored throughout, its expiry only grows, and not once it has run out |
| LeaseReplay.ReplayStep | src/cluster/ownership_machine.rs:252-307 | each command keeps a replaying table within the log's own history from its position on, with every key it lacks run out for good |
| LeaseReplay.SweepStep | src/cluster/ownership_machine.rs:412-426 | a sweep no later than the commands still to come, and shadowing no live lease, keeps it there |
| LeaseReplay.CompleteStep | src/cluster/ownership_machine.rs:252-307 | without sweeps each command also keeps the table from missing anything the history holds |
| LeaseRecovery.LeasesRecover | src/cluster/storage.rs:80-118 | for logs of acquire, renew and release with fresh ids, timestamps in order, renewals of ids acquired before and grants that do not run out as made: however often the node crashed, once caught up its lease tables are exactly those of applying the log once |
| LeaseRecovery.HoldersRecover | src/cluster/raft_cluster.rs:439-458 | with sweeps that are on time, saved by a later batch or not, every key's live lease is that of applying the log once, at every time from the latest sweep on, and nothing is stored that the log does not give |
| RecoveryWitnesses.ExpiryCommandsMoveHolder | src/cluster/ownership_machine.rs:309-321 | with an expiry command in an otherwise ordered log the replayed node names another live holder than the log |
| RecoveryWitnesses.ReusedIdMovesHolder | src/cluster/ownership_machine.rs:290-301 | with an id used twice the replayed node names another live holder |
| RecoveryWitnesses.BackwardsStampMovesHolder | src/cluster/ownership_machine.rs:290-301 | with a timestamp that runs backwards the replayed node names a holder where the log has none |
| RecoveryWitnesses.EarlyRenewalLosesHolder | src/cluster/ownership_machine.rs:290-301 | with a renewal of an id acquired only later the replayed node has lost a live holder |
| RecoveryWitnesses.ZeroTtlLeavesStray | src/cluster/ownership_machine.rs:260-287 | with a lease of no duration the replayed table has an entry too many |
| RecoveryWitnesses.LateSweepGrants | src/cluster/raft_cluster.rs:451-463 | a sweep ahead of the log makes the node grant an acquisition the log refused |
| RecoveryWitnesses.PurgedAcquisitionLeavesStray | src/cluster/storage.rs:499-520 | replaying a purged log can leave a lease entry too many |
| GossipClaims.Coordinator.HandleClaim | src/gossip.rs:381-441 | the claim arm as a merge by epoch then node id, with both sanity checks |
| GossipClaims.Coordinator.HandleHeartbeat | src/gossip.rs:464-499 | the heartbeat arm touches only a matching owner and epoch |
| GossipClaims.Coordinator.ClaimTopic | src/gossip.rs:710-762 | the local record, the message broadcast with the next epoch, 2 for a first claim, and the owned list after a claim |
| GossipClaims.Coordinator.MonitorPass | src/gossip.rs:1219-1286 | a failover pass with nothing in between claims exactly the timed-out topics of others, each as an ordinary claim, and broadcasts exactly those claims in order |
| GossipClaims.Convergence | src/gossip.rs:415-439 | in a network of any size and any run, nodes that processed the same claims for a topic agree on owner and epoch, those of the highest epoch and then lowest node id |
| GossipClaims.ClaimIntegrity | src/gossip.rs:721-742 | every record is a claim its owner issued, and each node's claims for a topic carry strictly increasing epochs |
| GossipClaims.RecordsNeverRegress | src/gossip.rs:415-439 | over any run no record ever loses rank |
| GossipClaims.FailoverIsClaim | src/gossip.rs:1223-1252 | an uninterrupted takeover is the same network step as a claim |
| GossipClaims.StaleFailoverRegresses | src/gossip.rs:1223-1252 | whatever messages land between the monitor's read and write, the write throws the record back exactly when one of them is an admitted claim that outranks the plan |
| GossipClaims.OnlyOwnerPutsOffTakeover | src/gossip.rs:493-498 | only the recorded owner speaking of the recorded epoch can put a takeover off, and no heartbeat brings it forward |
| GossipClaims.TakenExactly | src/gossip.rs:1223-1252 | after any messages the monitor takes another node's topic exactly when more than the timeout has passed since the latest accepted claim or heartbeat of it, with the next epoch; otherwise it leaves the record |
| GossipClaims.HeartbeatProtects | src/gossip.rs:464-499 | a heartbeat of the recorded owner and epoch protects the topic for the whole timeout, whatever else is heard |
| GossipClaims.RecordIsLatest | src/gossip.rs:381-499 | a record keeps the latest of the accepted signs of life, and of the accepted claims, of its topic |
| GossipClaims.Coordinator.HearThenMonitor | src/gossip.rs:1219-1286 | the same of the coordinator: messages handled one by one, then a pass that takes exactly the silent topics and broadcasts one claim for each record it changes |
| GossipClaims.ReleasedByOwnerOnly | src/gossip.rs:442-463 | a release is heeded from the recorded owner only and touches nothing else |
| GossipClaims.ResponseStartsTimeout | src/gossip.rs:552-555 | a response counts as a sign of life at the time it comes |
| GossipClaims.ReleaseOrderMatters | src/gossip.rs:442-463 | the same claim and release leave an owner or none depending on arrival order |
| GossipClaims.ResponseResetsEpoch | src/gossip.rs:552-555 | a query response keeps a record's rank only in the two cases where it had none to lose |
| TopicQueue.Queue.constructor | src/topic_queue.rs:89-105 | the capacity is the least power of two not below the size asked for |
| TopicQueue.Queue.Push | src/topic_queue.rs:108-136 | ids are handed out in sequence with none lost on refusal, refusal exactly at the acknowledged bound, and the log grows by exactly the entry |
| TopicQueue.Queue.Read | src/topic_queue.rs:140-159 | nothing exactly for ids not yet written; else the pushed entry of that id or a later lap of its slot, and exactly the id asked for among the last capacity |
| TopicQueue.Queue.Ack | src/topic_queue.rs:162-169 | the position becomes the maximum and the window bound is kept |
| TopicQueue.SlotHoldsNewest | src/topic_queue.rs:116-133 | each slot of the ring holds the newest entry of its residue class |
| TopicQueue.RecentSlotsAreExact | src/topic_queue.rs:116-133 | the last capacity ids are all still there |
| RingRaces.RingSafety | src/topic_queue.rs:108-169 | under every interleaving of pushes, two-step reads and two-step acks, an overwritten id is below some acknowledged id and a read returns an entry as pushed, of the id asked for or a later one of the same slot |
| RingRaces.StepKeepsRing | src/topic_queue.rs:108-169 | every atomic step keeps the ring invariant, position wrap-around included |
| RingRaces.AckCanGoBackwards | src/topic_queue.rs:162-169 | a run in which racing acknowledgements move the position backwards |
| RingRaces.UndisturbedPush | src/topic_queue.rs:108-136 | with nobody in between a push is refused exactly at the acknowledged bound and otherwise stored and published |
| RingRaces.UndisturbedRead | src/topic_queue.rs:140-159 | with nobody in between a read finds something exactly for published ids |
| RingRaces.UndisturbedAck | src/topic_queue.rs:162-169 | with nobody in between an acknowledgement leaves the larger position |
| SpmcQueue.Queue.Push | src/queue/spmc_lockfree_queue.rs:183-194 | the buffer is the window of the last capacity items pushed |
| SpmcQueue.Consumer.PopInner | src/queue/spmc_lockfree_queue.rs:318-339 | what a pop or a peek returns, without ever indexing out of range |
| SpmcQueue.Consumer.PopBatch | src/queue/spmc_lockfree_queue.rs:343-369 | the next single pops, as many as asked for, as fit or as are left, whichever is least; empty slots skipped; the head advances by what was returned |
| SpmcQueue.PopsCycleTheWindow | src/queue/spmc_lockfree_queue.rs:318-339 | the k-th pop is window item k modulo capacity and exactly as many pops succeed as items were pushed |
| SpmcQueue.BatchIsPops | src/queue/spmc_lockfree_queue.rs:343-369 | a batch is that many single pops |
| SpmcQueue.Consumer.Drain | src/queue/spmc_lockfree_queue.rs:372-375 | for a consumer that has read nothing, exactly the last capacity items pushed, oldest first |
| SpmcQueue.DrainIsTheWindow | src/queue/spmc_lockfree_queue.rs:372-375 | a fresh consumer's drain is the last capacity items, oldest first |
| SpmcQueue.BatchStepsOver | src/queue/spmc_lockfree_queue.rs:343-369 | a batch steps over items with timestamp zero |
| SpmcQueue.PopsStopAt | src/queue/spmc_lockfree_queue.rs:318-339 | single pops get everything before the first such item and then nothing more |
| SpmcQueue.ExactlyOnceIffNoOverflow | src/queue/spmc_lockfree_queue.rs:473-491 | popping delivers every item once and in order, whatever was pushed, if and only if no more was pushed than fits |
| Subscribers.Feed.Notify | src/topic_queue.rs:181-269 | delivery to all up to a stop, and without one the list keeps exactly the subscribers not found gone, in order |
| Subscribers.Feed.OfferEach | src/topic_queue.rs:190-247 | who is offered the entry, which positions are reported gone, and where `Error` mode stops |
| Subscribers.Feed.Offer | src/topic_queue.rs:192-245 | the send of each backpressure mode |
| Subscribers.Feed.RemoveDescending | src/topic_queue.rs:251-266 | removing positions from the highest down removes exactly those, from whatever the list has become |
| Subscribers.SecondCleanupExactly | src/topic_queue.rs:249-266 | when two deliveries found the same receivers gone, the second cleanup removes subscribers that were not gone exactly when a position still lies within the list the first left |
| Subscribers.StreamsAreOrdered | src/topic_queue.rs:181-269 | over every run and mode a subscriber's stream is a strictly increasing subsequence of what was pushed since it subscribed, and while its receiver is there all of it without exactly the pushes it missed; none in `Block` mode |
| Subscribers.PushReaches | src/topic_queue.rs:181-269 | a push is missed exactly by those whose channel is full, or in `Error` mode by those at or behind a full channel; everyone else with a receiver has it at the end of its stream, and nobody leaves the list who did not hang up |
| Subscribers.DeliveryReachesAll | src/topic_queue.rs:181-269 | after a delivery that was not stopped everyone left has its receiver, or a full channel in `DropNewest` mode, and in `Block` and `Error` mode has just got the entry |
| TopicService.TopicHandle.Push | src/ddl_distributed.rs:786-813 | a push is one step of the topic's run; on success in `Block` and `Error` mode every subscriber's stream ends with the entry; a subscriber error leaves it in place |
| TopicService.TopicHandle.PushBatch | src/ddl_distributed.rs:815-851 | an empty batch is refused; otherwise the topic has gone through the pushes of a prefix, each at its own time: all of them on success, those before the one refused for a full ring, or up to the one a full subscriber stopped |
| TopicLimit.LimitOverrunBounded | src/ddl_distributed.rs:320-351 | with n interleaved callers there are never more than max + n - 1 topics and the counter keeps its distance from the number of topics |
| TopicLimit.IdleStartIsBounded | src/ddl_distributed.rs:90-91 | a start within the limit, with no topics or some, and nobody in flight satisfies the bound |
| TopicLimit.LimitOverrunIsReached | src/ddl_distributed.rs:326-348 | for every n some interleaving reaches exactly max + n - 1 |
| TopicLimit.RefusedExactly | src/ddl_distributed.rs:326-335 | a caller is turned away exactly when there is a limit and the counter has reached it at its check |
| TopicLimit.UndisturbedCreate | src/ddl_distributed.rs:320-351 | with nobody in between the topic is there afterwards exactly when it was before or there was room, and the counter moves exactly when it is new |
| TopicLimit.UnlimitedRefusesNone | src/ddl_distributed.rs:328-329 | without a limit nobody is refused in any run |
| CircuitBreaker.PeerBreaker.AllowRequest | src/peer/circuit_breaker.rs:25-43 | the answer and the transition to half-open |
| CircuitBreaker.PeerBreaker.RecordSuccess | src/peer/circuit_breaker.rs:44-49 | a success while open is ignored |
| CircuitBreaker.PeerBreaker.RecordFailure | src/peer/circuit_breaker.rs:50-62 | the count advances with 32-bit wrap and opens at the threshold |
| CircuitBreaker.ClosedExactly | src/peer/circuit_breaker.rs:44-62 | the breaker is closed if and only if fewer failures than the threshold came since the last success that took effect, and closed it lets every request through |
| CircuitBreaker.OpeningAdmitsNone | src/peer/circuit_breaker.rs:25-62 | from an opening failure until the reset time is over no request is admitted, whatever is reported meanwhile, as long as the deadlines computed fit in 64 bits |
| CircuitBreaker.OpeningSurvivesExactly | src/peer/circuit_breaker.rs:50-62 | between the two stores of an opening failure requests and successes may come; the breaker ends open if and only if no request among them came at or after the previous failure's deadline |
| CircuitBreaker.WindowProtectedExactly | src/peer/circuit_breaker.rs:33-33 | the whole interval is protected if and only if the deadline fits in 64 bits |
| CircuitBreaker.ProbeDecides | src/peer/circuit_breaker.rs:33-61 | after the reset time a request goes through as a probe whose outcome closes or reopens the breaker |
| FailureDetector.Detector.CheckFailures | src/cluster/gossip.rs:107-137 | in whatever order peers are visited, every flag becomes its silence and each peer's events are those of its own check |
| FailureDetector.EventsAlternate | src/cluster/gossip.rs:72-137 | for every peer in every run the events since it was added alternate starting with a failure, the flag says whether the last was one, and the failures are exactly the events after a silence longer than the timeout |
| FailureDetector.FailureFollowsSilence | src/cluster/gossip.rs:115-135 | a peer is reported failed exactly when counted healthy and silent for longer than the timeout, and recovered exactly in the converse case |
| FailureDetector.Act | src/cluster/gossip.rs:72-137 | every call on the detector is a step of the run it is part of, and what it sends is what the run adds to the peers' events |

## Left out

- Raft consensus, elections and replication: they live in openraft; the committed entry order is taken as given, and that applied entries are never truncated.
- Snapshots, votes and `get_log_state`: serialization and bookkeeping around the state modelled here.
- Byte encodings, file renames, I/O errors and the flush lock: decoding is taken to undo encoding, and a flush to succeed.
- Recovery.TopicRecovers: the position of the next entry to apply is the Raft core's; the position a purge writes into the storage object is not read before a restart, which forgets it.
- LeaseRecovery.LeasesRecover: logs kept whole and free of expiry commands, with the order conditions stated; each condition has a run that shows it is needed, and logs outside them that happen to recover are not characterised.
- LeaseTable.OneLiveLeasePerKey: one proposing node, timestamps that do not run backwards, a counter below its last value, and no crash of the proposing node while a drawn id is uncommitted, since the counter comes back from disk without the draw; `CollisionBreaksExactly` and `RevivalBreaksExactly` say exactly when a grant or a renewal without these breaks the table, `TwoProposersCollide` and `BackwardsClockRevivesLease` that it happens.
- CircuitBreaker.PeerBreaker.RecordFailure: the stores of state and failure time are one step; `OpeningSurvivesExactly` is about the two taken apart.
- Gossip release, announce, leave and response messages, cache eviction and the interrupted failover monitor are outside the convergence theorem: they lower or erase epochs, as the lemmas about them show.
- Subscribers.StreamsAreOrdered: channels have room for at least one entry; the rendezvous channel of a zero buffer size is not modelled.
- SpmcQueue.Queue.Push: the tail counter does not wrap.
- Hardware memory ordering: each atomic load, store or locked section is one step.
- Transports, write-ahead log wrappers, configuration, metrics aggregation, peer cache, routing, registry and health: plumbing and members that would add only easy statements.

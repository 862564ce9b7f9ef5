# A model of UNIT3D-Announce

UNIT3D-Announce is an in-memory BitTorrent tracker with a write-behind MySQL queue. Clients announce themselves;
the tracker keeps the peers of every torrent, counts them per torrent and per user, hands out other peers, credits
transfers, and writes what changed to the database in batches some time later. A reaper takes out peers that stopped
announcing.

This project models the tracker in Dafny and proves what its design relies on:

* **Counters are caches that never drift.** Seeders and leechers of a torrent are adjusted by deltas in saturating
  32-bit arithmetic, never recounted. In every state of every run of announces, reaper passes and flushes whose batches
  succeed or fail at will, they equal the number of listed peers, and the stored count plus in-flight plus queued
  deltas. With atomic announces the same holds of every user's counters; with the user's update delayed, a user is
  never under-counted.
* **The queue loses no bytes and no counts.** Updates merge into the queue, a prefix is taken in batches, each batch lands
  or goes back behind newer updates. Transfers are conserved: what announces count, credit and complete reaches the rows
  of the history, the user and the torrent. What is not added up can be lost: a peer's row ends with its last announce,
  and a history with the snapshot and the completion of its last one, exactly under conditions on the announces and the
  failures that are proved for each column.
* **The limits hold** exactly outside transitions that the code does not check: reviving a known peer for the limit of
  peers, and a visible, active peer that turns into a leech for the limit of download slots. Lists of peers are withheld
  exactly when the decayed weight of a user's earlier requests, as of the last of them, is over a limit.
* **Parsers and printers** mean what they should: the two-iterator scan of the query string, percent-decoding, the
  bencoded replies, the compact peer strings, the info hash in hexadecimal.
* **Rates and credits**: the incremental decayed rate equals the sum over the full history; rounding of credits has an
  exact bound.

## Layout

| file | what it holds |
|---|---|
| `MachineInts`, `Results`, `Tables` | fixed-width arithmetic, options, insertion-ordered tables |
| `Updates`, `FlushProtocol`, `KeyRuns`, `Queues` | update records and their in-place merge; the flush protocol as a state machine; what one key sees of it over a run; the queue itself |
| `Schedules`, `ColumnConditions` | runs of one key put together; what becomes of a column over all runs, for any policy of merging: overwritten, recorded once, newest or first time, lost for good |
| `NewestConditions`, `HistoryConditions`, `UnregisteredConditions` | the same for the rows of peers, of histories and of unregistered info hashes |
| `Peers`, `Announces`, `Reaper`, `TorrentStore` | who is counted; what an announce and a pass do to a torrent, as functions and, in `TorrentStore`, as the in-place code proved against them |
| `AnnounceEffects`, `CallEffects` | what an announce, and a call, comes to: stated of the request, the settings and what was known before |
| `Limits`, `SlotRuns` | the limits of a user's active peers and download slots over runs, and runs that break each limit |
| `Swarms`, `SwarmRuns`, `AtomicRuns`, `Passes` | the counters over runs, with delayed and with atomic user updates, and the order-independence of the parallel pass |
| `Admissions`, `PeerLists`, `CompactPeers`, `Credits`, `Serving`, `Recording` | the parts of an announce around its change of the peers |
| `Tracker`, `TrackerRuns` | the whole announce and the whole pass on the tracker's mutable state, and the claims about counters over runs of these |
| `QueueTraces`, `TrackerLedgers` | runs of the tracker, seen from one of its queues, read as runs of the flush protocol |
| `HistoryLedgers`, `UserLedgers`, `PeerLedgers`, `TorrentLedgers`, `BalanceLedgers` | the way from calls to stored rows, for each of these queues |
| `RateRuns` | the limits on peer lists over runs of the tracker |
| `AllQueues`, `Shutdown` | all queues together, and the drain loop at the end of the program |
| `Segments`, `QueryStrings`, `Hex`, `Decimals` | the query string |
| `Bencode`, `Replies`, `Errors`, `Warnings` | the bodies sent to clients |
| `Transfers`, `Rates` | byte accounting over a peer's session; decayed rates |

Code that works in place is a class or a method with loops, proved against a specification function; claims over runs
are lemmas about those functions. A torrent is a value in the store, and the class `TorrentStore.Swarm` is that value
while it is locked. Bytes in texts are characters with codes below 256. Times are nanoseconds.

Where the code and its comments differ, the model follows the code:

* The slot limit looks at the new seeding state and connectability together with the *old* activity and visibility of a
  peer, so a visible seeder that starts to leech passes it (`Announces.SlipsPastSlotLimit`).
* The 16-bit peer count of the peer limit wraps around, so the limit 65535 never rejects (`Announces.PeerLimitIff`).
* A tail such as `%a` after 20 bytes passes the length check of the percent-decoder and is ignored (`Hex.IgnoredTail`).
* A shutdown whose thousandth flush empties the last queue reports a failure (`Shutdown.Drain`).
* Announces of one peer that share a time are not ordered: if they meet in the queue the first is stored, and if a flush
  comes between them the second (`NewestConditions.EqualTimesDependOnFlushes`). An announce with an earlier time than the
  one before it can put the stored row back in time (`NewestConditions.StoredTimeNeverFallsIff`).
* The count that is compared with the limit of a rate is called the current rate, but is the rate as of the last event:
  after a burst over the limit the next request is refused however late it comes (`Rates.BurstStaysOverLimit`,
  `RateRuns.WithheldThoughLightIff`).
* A merge of histories takes the completion of the later update, so a plain announce hides the completing one before it if
  both meet in the queue (`HistoryConditions.LostCompletion`); and a failed batch puts an older snapshot back under the
  newer time (`HistoryConditions.StaleSnapshot`).
* A peer that a pass made inactive becomes active again without a check of the limit (`Limits.RevivalExceedsLimit`).

## Model

| member | source | states |
|---|---|---|
| FlushProtocol.StepProjects | src/queue.rs:157-247 | Every step of the queue machine (upsert, take, landed batch, returned batch) is, for each key, one of five steps of that key, and no key is ever in two places of one flush. |
| KeyRuns.RunProjects | src/queue.rs:157-247 | Whole runs of the queue are runs of each of its keys. |
| KeyRuns.LedgerOverKeyRun | src/queue.rs:157-190 | Stored + in flight + queued equals the initial total plus all arrivals exactly if no merge overflowed, and is smaller otherwise. |
| KeyRuns.TransfersAreConserved | src/queue.rs:157-247 | For every key, across merges, batches and requeues, stored + in flight + queued grows by exactly the sum of the deltas enqueued, while the sums fit. |
| KeyRuns.HistoryColumnsAddUp | src/queue/history_update.rs:41-44 | The four transfer columns of a history satisfy what conservation needs, although their sums wrap around. |
| UserLedgers.CreditColumnsAddUp | src/queue/user_update.rs:24-28 | So do the two saturating columns of a user. |
| KeyRuns.SplitOverKeyRun | src/queue/peer_update.rs:33-51 | Stored row, batch in flight and queued record of a peer always hold three consecutive stretches of its announces. |
| KeyRuns.NewestWins | src/queue/peer_update.rs:33-51 | With increasing announce times a stored peer never goes back in time, whatever batches fail, and once drained it holds the latest announce with its first creation time. |
| NewestConditions.LastIsStoredIff | src/queue/peer_update.rs:33-51 | All drained runs with given announces of a peer store the last of them, exactly if every other one is older or differs in its creation time only. |
| NewestConditions.StoredTimeNeverFallsIff | src/queue/peer_update.rs:33-51 | In no run with given announces does the stored row go back in time, exactly if their times never fall. |
| NewestConditions.PeerCreationIff | src/queue/peer_update.rs:49 | All drained runs of a new peer store the creation time of its first announce, exactly if none is earlier. |
| NewestConditions.EqualTimesDependOnFlushes | src/queue/peer_update.rs:35-47 | Of two announces at one time the first is stored if they meet in the queue, and the second if a flush comes between. |
| NewestConditions.QueueStoresNewest | src/queue.rs:157-247 | The same condition suffices for each peer of a whole queue, under any failures. |
| NewestConditions.QueueNeverGoesBack | src/queue.rs:157-247 | So does the other one. |
| NewestConditions.QueueMayStoreAnother | src/queue.rs:157-247 | Without the first condition some flushes of a whole queue, none of them failing, store another announce. |
| NewestConditions.QueueMayGoBack | src/queue.rs:157-247 | Without the second one some flushes, none of them failing, put the row back in time. |
| UnregisteredConditions.UnregisteredTimesIff | src/queue/unregistered_info_hash_update.rs:24-71 | No run puts the row of an unregistered info hash back in time, and all drained ones store the first time it was asked for, each exactly if the times are in order. |
| ColumnConditions.LastValueIff | src/queue.rs:157-247 | For any column that merges and upserts overwrite: all drained runs with given updates store the value of the last, exactly if all have it. |
| ColumnConditions.RecordedIff | src/queue.rs:157-247 | For any column that merges overwrite and rows keep: from a row without it all drained runs record it, exactly if all updates give it. |
| ColumnConditions.NeverGoesBackIff | src/queue.rs:157-247 | For any time that merges keep the greatest of: no run puts the row back in time, exactly if the times of the updates never fall. |
| HistoryConditions.LastSnapshotIff | src/queue/history_update.rs:34-49 | All drained runs of a history end with the agent, activity, seeding state and reported bytes of its last update, exactly if all its updates have the same. |
| HistoryConditions.LastSnapshotInOrder | src/queue/history_update.rs:34-49 | Any drained run does in which no failed batch goes back behind a newer update. |
| HistoryConditions.StaleSnapshot | src/queue/history_update.rs:34-49 | A failed batch goes back behind a newer update: the row ends with the older snapshot under the newer time. |
| HistoryConditions.CompletionIff | src/queue/history_update.rs:45 | From a row without a completion all drained runs record one, exactly if every update carries one. |
| HistoryConditions.CompletionInOrderIff | src/queue/history_update.rs:45 | All drained runs without such returns do, and all without any, exactly if the last update carries one. |
| HistoryConditions.CompletionStays | src/queue/history_update.rs:128 | A recorded completion stays as it is. |
| HistoryConditions.LostCompletion | src/queue/history_update.rs:45 | A completing and a plain update meet in the queue: nothing fails, and no completion is recorded. |
| HistoryConditions.ImmunityLostIff | src/queue/history_update.rs:34-49 | All drained runs take a row's immunity away, exactly if no update is immune; all without returns behind newer updates, exactly if the first is not. |
| HistoryConditions.HistoryTimeNeverFallsIff | src/queue/history_update.rs:47 | In no run does a history's row go back in time, exactly if the times of its updates never fall. |
| HistoryConditions.HistoryCreationIff | src/queue/history_update.rs:46 | All drained runs of a new history store the creation time of its first update, exactly if none is earlier. |
| HistoryConditions.QueueShowsLast | src/queue.rs:157-247 | In a whole queue a drained history has the snapshot, and the completion, of its last update, if no failed batch went back behind a newer update of it. |
| HistoryConditions.QueueMayShowAnother | src/queue.rs:157-247 | If the snapshots differ, some run of a queue with one failed batch ends with another than the last. |
| HistoryConditions.QueueMayLoseCompletion | src/queue.rs:157-247 | If the last update carries no completion, some run of a queue without a failed batch records none. |
| Updates.TorrentRecord.Merge | src/queue/torrent_update.rs:24-33 | The in-place saturating merge is the merge function the protocol is proved for. |
| Updates.PeerRecord.Merge | src/queue/peer_update.rs:33-51 | The in-place merge takes all fields of a strictly newer update and the earliest creation time. |
| Updates.HistoryRecord.Merge | src/queue/history_update.rs:34-49 | The in-place merge takes the new snapshot, adds the deltas modulo 2^64 and keeps the first and last time. |
| Updates.UserRecord.Merge | src/queue/user_update.rs:24-29 | The in-place saturating merge is the merge function the protocol is proved for. |
| Updates.UnregisteredRecord.Merge | src/queue/unregistered_info_hash_update.rs:24-32 | The in-place merge keeps the earliest creation and the latest update. |
| Queues.QueueConfig.BindingsFit | src/queue.rs:131-142 | A batch within the size uses at most the allowed bindings, extra ones included. |
| Queues.QueueConfig.BatchSizeIff | src/queue.rs:131-142 | A batch may hold n records exactly if a query has the bindings for them, extra ones included, and n is at most the configured records per batch, if that is set. |
| Queues.SortedSpec | src/queue.rs:177 | Sorting a batch orders it by key and loses no record. |
| Queues.Queue.Upsert | src/queue.rs:157-163 | In place: the record of the key absorbs the update in its slot, or is appended. |
| Queues.Queue.TakeBatches | src/queue.rs:167-187 | The batches are the key-sorted first min(length, batches x size) records, none empty, too long or longer than the configured records per batch, only the first partial, no more than allowed; the rest keeps its order. |
| Queues.Queue.Cut | src/queue.rs:179-184 | The loop that splits batches off the end ends for every size, zero included, and its batches joined are the input. |
| Queues.Queue.UpsertBatch | src/queue.rs:190-192 | A returned batch is upserted record by record. |
| Queues.Queue.SettleBatches | src/queue.rs:236-245 | Batches that landed are gone, the others are merged back in order, each behind the updates that arrived before it. |
| Queues.SettlingIsARun | src/queue.rs:236-245 | The end of a flush, with any updates arriving between the batches, is a legal run of the protocol with these outcomes, after which nothing is in flight. |
| Queues.Queue.FlushDuring | src/queue.rs:213-247 | In place: a whole flush, with updates arriving while batches are written and between those that are settled, leaves the rest of the queue with the arrivals and the failed batches merged in, in this order. |
| Queues.FlushIsARun | src/queue.rs:213-247 | Taking batches, any arrivals before each of them is settled and any outcomes are a legal run of the protocol, which ends in the queue and rows that the flush leaves, with nothing in flight. |
| QueueTraces.FlushConserves | src/queue.rs:213-247 | For every key, what is stored and queued after one whole flush is what was before it, and what arrived meanwhile. |
| Queues.FlushedLength | src/queue.rs:213-247 | With nothing queued meanwhile a flush never lengthens the queue, and shortens it by what it took if all batches land. |
| Peers.TallySwapRemove | src/announce.rs:464-467 | Swap-removal of a peer lowers each count by that peer only. |
| Peers.TallyOfUser | src/store/peer.rs:40-62 | A user's listed seeds (leeches) are among the torrent's, and no peer is in both lists. |
| Peers.TallyIsNumber | src/store/peer.rs:40-62 | Each count is the number of peers it is about: seeds or leeches, of a user or of all, that are active, visible and, if required, connectable; or a user's active ones. |
| Announces.DeltasAreCountChanges | src/announce.rs:462-609 | The seeder and leecher deltas of an announce are exactly the changes of the counts, in total and per user, for every event and slot decision. |
| Announces.UndoneInsertion | src/announce.rs:586-594 | Removing the peer that was just appended restores all slots and their order. |
| AnnounceEffects.RefusedIff | src/announce.rs:462-597 | An announce is refused exactly if an unknown peer stops, or a new one comes on top of as many active peers of its user as the limit, below 65535, allows. |
| AnnounceEffects.PeerAfterwards | src/announce.rs:496-535 | Every field of the announcing peer afterwards is the request's, it has completed if it ever said so, it is gone if it stopped, and other peers are as before. |
| AnnounceEffects.VisibleIff | src/announce.rs:502-531 | A peer is shown unless the slots are taken; then only one that was active and visible and is a leech, connectable if required. |
| AnnounceEffects.CompletedIff | src/announce.rs:547 | One completion is counted exactly if a known leech announces with nothing left and does not stop, and none otherwise. |
| AnnounceEffects.BytesCounted | src/announce.rs:469-562 | The differences to the last report, both or neither in a session that goes on, each for itself at its end, and nothing for a new peer. |
| AnnounceEffects.WarnedIff | src/announce.rs:536-577 | Each of the three warnings is given exactly on its condition: too soon, unless for the first completed event; hidden; not connectable though required. |
| AnnounceEffects.ActiveAfterStopIff | src/announce.rs:480-486 | After a stop it is known whether any peer of the user is still active. |
| Announces.PeerLimitIff | src/announce.rs:579-597 | A new peer is rejected exactly if the user's active peers with it exceed the limit and the limit is below 65535. |
| Announces.ActiveAfterAnnounce | src/announce.rs:462-597 | A user's active peers after an announce, in each of its cases: one more for a new or revived peer, one fewer for one that stops. |
| Announces.PeerLimitExceededIff | src/announce.rs:496-597 | An announce takes a user's active peers over the limit and over what they were exactly if it revives a peer of that user with the limit reached. |
| Announces.PeerLimitKept | src/announce.rs:496-597 | So an announce that revives no peer takes nobody over the limit. |
| Announces.SlotLimitIff | src/announce.rs:443-546 | With all slots taken, an announce adds a listed leech exactly if its peer was active and visible and was a seeder or (connectivity required) not connectable before. |
| TorrentStore.Swarm.ExceedsLimit | src/announce.rs:580-597 | The early-exit loop in 16 bits decides exactly whether the limit is exceeded. |
| TorrentStore.Swarm.ModifyPeer | src/announce.rs:502-517 | The field-by-field update of a known peer. |
| TorrentStore.Swarm.Stop | src/announce.rs:462-492 | A stop removes the peer and finds out whether another one is active, or is refused without effect. |
| TorrentStore.Swarm.InsertPeer | src/announce.rs:519-609 | A new peer is entered, and taken out again without a trace if it is one too many. |
| TorrentStore.Swarm.Announce | src/announce.rs:462-616 | In place: peers, counters and warnings after an announce are those of the specification; a rejection changes nothing. |
| TorrentStore.Swarm.Retain | src/scheduler.rs:44-46 | In place: the kept peers, in order. |
| TorrentStore.Swarm.Expire | src/scheduler.rs:48-76 | In place: expired peers become inactive, the deltas are the changes of the counts, and the users' counters are decremented once for each listed one. |
| TorrentStore.Swarm.Reap | src/scheduler.rs:40-95 | In place: peers, counters, users and queued update of a pass over one torrent. |
| Reaper.ReapedMembers | src/scheduler.rs:44-76 | A peer survives a pass exactly if it was kept, and then as it was or inactive. |
| Reaper.PassIff | src/scheduler.rs:33-76 | What a pass makes of each peer, by the settings: an active one goes inactive past its time to live, an inactive one is forgotten past its own, all others stay. |
| Reaper.SilentPeersAreRemembered | src/scheduler.rs:44-46 | A silent peer is remembered with its last report over every run in which no pass comes later than the inactive time to live after its last announce. |
| Reaper.EffectsCountDrops | src/scheduler.rs:54-72 | The decrements a pass makes for a user are exactly the fall of that user's counts. |
| Reaper.PassPromises | src/scheduler.rs:44-76 | After a pass every active peer is at or past the active cutoff; active peers are never erased. |
| Reaper.TwoPassesSettle | src/scheduler.rs:44-76 | Two passes with the same cutoffs reach a fixed point without peers older than both cutoffs. |
| Reaper.PunctualPeersStayActive | src/scheduler.rs:33-76 | A peer that announces at least every announce_max seconds stays active through every run (the time to live is longer, src/config.rs:204-207). |
| Swarms.BandStep | src/queue/torrent_update.rs:25-32 | While counts span less than 2^31, no merge of deltas saturates: the ledger moves by exactly what arrives. |
| SwarmRuns.CountersNeverDrift | src/announce.rs:611-616 | In every state of every interleaved run each torrent's counters equal the number of listed peers, and stored + in flight + queued + outstanding deltas. |
| SwarmRuns.DriftStep | src/announce.rs:857-879 | A user's counter plus pending changes leaves the true sum only by clamping. |
| SwarmRuns.UserCountersNeverUndercount | src/announce.rs:857-879 | With user updates delayed and interleaved at will, counter + pending never falls behind the true sum by more than at the start, and keeps its distance exactly in the runs where no decrement found a counter at zero. |
| SwarmRuns.OvertakenUpdateOvercounts | src/announce.rs:857-879 | Two announces whose user updates are carried out in the other order leave the user with a leech too many. |
| AtomicRuns.AtomicRunsAreExact | src/announce.rs:541-879 | With atomic announces and passes every user and torrent counter is exact after every step. |
| AtomicRuns.SlotLimitHolds | src/announce.rs:443-546 | In atomic runs without announces that slip past the limit, a user has at most max(slots, initial) listed leech peers. |
| SlotRuns.SlotLimitHoldsIff | src/announce.rs:443-546 | Over an atomic run a user's counted leeches stay within the slots, or any bound above, exactly if no announce slips past the limit while that many are counted. |
| Limits.PeerLimitHoldsIff | src/announce.rs:496-597 | Over a run of announces and passes a user's active peers stay within the limit exactly if no peer is revived while that many are active. |
| Limits.PeerLimitHolds | src/announce.rs:579-597 | In runs without revivals, a user's active peers on a torrent never exceed max(limit, initial). |
| Limits.RevivalExceedsLimit | src/announce.rs:502-517 | With a limit of one, a peer that expired and comes back after another was let in makes two. |
| Limits.LargestLimitIsNone | src/announce.rs:579-597 | With the limit 65535 any number of new peers of one user is let in. |
| Limits.SeederTakesSlot | src/announce.rs:443-546 | A peer that seeds and then leeches takes a download slot though none is free. |
| Passes.DecrementsAddUp | src/scheduler.rs:60-66 | Saturating decrements commute: only their sum per user matters. |
| Passes.ParallelPassIsOrderIndependent | src/scheduler.rs:40-95 | However the effects of the torrents interleave, users and queued updates come out the same. |
| Passes.SettleIsSettled | src/announce.rs:857-958 | Carrying out what a locked section leaves behind is one fold over the users and one over the queue. |
| Admissions.Admit | src/announce.rs:308-440 | A call is refused with the first of its problems, the torrent's before the user's, and admitted only without any; unregistered or deleted info hashes of known users are noted. |
| Admissions.AdmittedIff | src/announce.rs:308-440 | A call has no problem exactly if its port, passkey, info hash, torrent, user and group are all in order, and a leech may download. |
| Admissions.TorrentProblemIs | src/announce.rs:308-420 | Which problem with the form or the torrent comes first, in each case. |
| Admissions.UserProblemIs | src/announce.rs:376-440 | Which problem with the user comes first, in each case; a lost download privilege matters to leeches only. |
| Admissions.NotedIs | src/announce.rs:376-420 | Exactly unknown info hashes and those of deleted torrents are noted, for known users, with the time of the call. |
| CallEffects.NeverHidden | src/announce.rs:443-451 | One who seeds, whose group has no slot limit, or who leeches on fewer torrents than it allows is never hidden or warned of slots. |
| CallEffects.NewPeerHiddenIff | src/announce.rs:443-531 | A new peer is hidden, and its user warned, exactly if it leeches and the group's slots are taken. |
| CallEffects.CreditIs | src/announce.rs:754-849 | The credits are the counted bytes times the factors, rounded down, with the factors given by settings, group, torrent, standing and the three favours. |
| CallEffects.FreeleechIsFree | src/announce.rs:813-832 | Under each of the three freeleeches no download is credited. |
| CallEffects.QueuedIs | src/announce.rs:881-976 | Peer, history and credit are absorbed under their own keys, and the log gets the announce if it is kept. |
| Admissions.FindApproved | src/announce.rs:394-420 | The torrent's own problems, in order. |
| PeerLists.ChooseMultiple | src/announce.rs:654-667 | Whatever is drawn, a choice without repetition of as many as wanted or all there are. |
| PeerLists.SelectPeers | src/announce.rs:632-675 | Who is asked for, who is chosen and which limits are hit, up to the random draws. |
| PeerLists.RequestedIff | src/announce.rs:632-675 | Seeds count as requested exactly if there is a leecher and a seed, the client leeches, wants peers, does not stop and is not warned; leeches alike with room left. |
| PeerLists.EligibleAreOthers | src/announce.rs:638-642 | The candidates are the active, visible and, if required, connectable peers of other users, each once. |
| PeerLists.SelectionIsSound | src/announce.rs:632-675 | At most numwant peers, none twice, all listed, none of the requester; seeds first, and none for a seeder. |
| PeerLists.SelectionIsFull | src/announce.rs:632-675 | With an exact seed counter and no limit or warning the list is as long as it can be: numwant, or every eligible peer. |
| CompactPeers.ReadIff | src/announce.rs:677-690 | Compact bytes are read back as exactly the sockets they were made of (6 bytes in BEP 23, 18 in BEP 7). |
| CompactPeers.CompactIs | src/announce.rs:677-690 | The address, and then the port with its most significant byte first. |
| CompactPeers.Serialize | src/announce.rs:677-690 | The two byte strings read back as the IPv4 and the IPv6 peers, each in order. |
| Serving.Respond | src/announce.rs:693-752 | The body decodes to the counters, intervals, peers and warnings of this announce. |
| Serving.Serve | src/announce.rs:369-752 | The locked section: specification of the change, a valid choice of peers from the state after it, and a decodable reply. |
| Serving.LeechesGetSeeds | src/announce.rs:632-656 | A listed leech, be it the only one, gets as many seeds as it wants, or every listed seed of another user, with exact counters and no warning or limit. |
| Serving.BodyTells | src/announce.rs:698-752 | The body tells the numbers of listed seeds and leeches, unless they are withheld. |
| Credits.Factors | src/announce.rs:754-846 | The upload factor is the greatest and the download factor the least of all that apply, unless featured or free. |
| Credits.FactorsAre | src/announce.rs:754-846 | The factors in closed form, with the one override of the user's standing. |
| Credits.CreditIsExactIff | src/announce.rs:848-849 | A credit is the rounded-down percentage exactly if the product fits 64 bits. |
| Credits.CreditsFit | src/announce.rs:848-849 | Deltas up to a 255th of the range never overflow, under any factor. |
| Credits.RoundingIsBounded | src/announce.rs:848-849 | Over n announces with one factor rounding costs between 0 and 99 hundredths of a byte each. |
| Credits.CreditsFavourTheUser | src/announce.rs:754-849 | With ordinary groups, credited download <= actual and actual <= credited upload, under every override. |
| Recording.UpdateMirrorsPeer | src/announce.rs:881-901 | The queued row of a peer says exactly what is remembered of it in memory, and of a stopped one that it is gone. |
| Recording.PeerRowIs | src/announce.rs:881-901 | Every column of a peer's row after one announce. |
| Recording.HistoryRowIs | src/announce.rs:903-931 | Every column of a history after one announce: credited, counted and reported bytes, and a completion for the completed event. |
| Recording.ImmunityIs | src/announce.rs:912-920 | A set override of the user's standing decides the immunity, and the group otherwise. |
| Recording.LoggedIs | src/announce.rs:961-976 | Every field of the announce log, with the wanted peers saturated at 16 bits. |
| Recording.HistoryIsActiveIff | src/announce.rs:903-930 | A history is active exactly if its user still has an active peer on the torrent. |
| Recording.RecordTorrent | src/announce.rs:943-959 | The torrent's update is queued exactly if something changed. |
| Recording.RecordCredit | src/announce.rs:933-941 | Credits are queued unless both are zero. |
| Tracker.Server.Finish | src/announce.rs:813-976 | What an accepted announce leaves in the users, their rates and in the five queues. |
| Tracker.Server.Announce | src/announce.rs:308-980 | A whole announce: refused with its first problem, turned away by the torrent without any effect, or carried out with this reply and this new state. |
| Tracker.Server.Reap | src/scheduler.rs:33-96 | A whole pass: all torrents reaped, all users decremented, all updates queued. |
| TrackerRuns.CarriedIsAtomicStep | src/announce.rs:443-959 | An accepted announce of the mutable tracker is an atomic step of the abstract runs. |
| TrackerRuns.PassKeepsExact | src/scheduler.rs:40-95 | A whole pass keeps all counters exact, torrent by torrent. |
| TrackerRuns.RunsAreExact | src/announce.rs:611-616 | In every state of every run of calls, passes and flush steps, torrent counters equal listed peers and stored + in flight + queued deltas, and user counters equal that user's listed peers on all torrents. |
| TrackerRuns.SlotLimitOverRuns | src/announce.rs:443-451 | In runs of the tracker without announces that slip past the limit, a user has at most max(slots, initial) listed leech peers. |
| SlotRuns.SlotLimitOverRunsIff | src/announce.rs:443-451 | Over a run of the tracker they stay within the slots of the user's group, or any bound above, exactly if no accepted announce slips past the limit while that many are counted. |
| TrackerLedgers.RunIsQueueRun | src/queue.rs:157-247 | Every run of calls, passes and flush steps is, for one queue, a legal run of the flush protocol in which exactly the updates of the accepted announces and the passes arrive. |
| TrackerLedgers.AmountsReachTheDatabase | src/queue.rs:157-247 | In every such run stored + in flight + queued of an additive column grows by exactly these updates, while they fit. |
| HistoryLedgers.BytesReachTheHistory | src/announce.rs:903-931 | Stored + in flight + queued bytes of each user and torrent grow by exactly what the accepted announces counted and credited, under arbitrary failures. |
| HistoryLedgers.LatestHistoryIsStored | src/announce.rs:903-931 | In runs of the tracker in which no history batch fails, a drained history shows the latest accepted announce, with a completion if that one completed. |
| UserLedgers.CreditsReachTheUser | src/announce.rs:933-941 | So do the uploaded and downloaded bytes of each user by what was credited. |
| TorrentLedgers.CompletionsReachTheTorrent | src/announce.rs:547-616 | The completed downloads of a torrent in memory stay equal to stored + in flight + queued, and grow by one for each accepted announce in which a known leech has nothing left. |
| BalanceLedgers.BalanceReachesTheTorrent | src/announce.rs:943-959 | Stored + in flight + queued balance of a torrent moves by exactly what accepted announces uploaded less what they downloaded, within a band narrower than 2^63. |
| PeerLedgers.StoredPeersConverge | src/announce.rs:881-901 | With increasing times a stored peer never goes back in time, and once nothing of it is queued or in flight its row is the update of its latest accepted announce. |
| PeerLedgers.LatestAnnounceIsStored | src/announce.rs:881-901 | Whatever the other times, it is enough for the latter that the latest accepted announce is newer than all that differ from it. |
| RateRuns.CountsAreHistories | src/announce.rs:857-879 | In every run of the tracker the count of each of a user's rates is the decayed weight of all the times the user asked for such a list. |
| RateRuns.WithheldIff | src/announce.rs:642-675 | After every run, a list that is asked for is withheld exactly if the decayed weight of the user's earlier requests, as of the last of them, is over one of the limits. |
| RateRuns.WithheldThoughLightIff | src/rate.rs:56-59 | Whatever would be withheld by their weight as of now is withheld; and beyond that a list is exactly if a count is over its limit and all counts would be within theirs once decayed until now. |
| RateRuns.PatientUsersAreServed | src/announce.rs:642-675 | A user whose requests are at least d apart is never refused a list, if the limits allow for one every d. |
| Transfers.NeverMoreThanRises | src/announce.rs:469-562 | Over every run a peer is counted at most the sum of the rises of its reports. |
| Transfers.SessionTelescopes | src/announce.rs:549-562 | In a session with reports that never fall, the deltas add up to last minus first. |
| Transfers.WholeSessionTelescopes | src/announce.rs:603-606 | The same from the announce that inserts the peer. |
| Transfers.SilenceLosesNothing | src/scheduler.rs:44-46 | A peer that was silent, for no longer than inactive peers are remembered, goes on from its last report, also if it went inactive. |
| AllQueues.AnnounceLog.TakeBatch | src/queue/announce_update.rs:38-55 | The first 5461 records at most, 12 bindings each. |
| AllQueues.QueueSet.Flush | src/queue.rs:84-95 | Each queue's sorted first records leave it in batches and those of failed batches come back merged; so no queue grows, and each shrinks by its capacity if all batches land. |
| AllQueues.ShippedQueuesFit | src/queue.rs:37-70 | All five configured queues take batches of thousands of records, as large as the limit of 65535 bindings allows and no larger. |
| Shutdown.Drain | src/main.rs:105-118 | Success is claimed only with empty queues; if all batches land, exactly if fewer than 1000 flushes are needed, which is the greatest of the queues' ceil(length / capacity). |
| Shutdown.CutOffAtTheEnd | src/main.rs:105-118 | A log of exactly a thousand batches needs the thousandth flush, so it is emptied and reported as a failure. |
| Segments.Scan | src/announce.rs:115-174 | The two-iterator walk reads a query string as its segments, one after the other. |
| Segments.WalkAgrees | src/announce.rs:132-174 | From any position of the walk, what is still read is the naive reading of the rest. |
| Segments.StructuredYieldsPairs | src/announce.rs:132-174 | A structured string yields its segments split at their first equal signs, in order. |
| Segments.UnstructuredFails | src/announce.rs:132-174 | Any other string is refused. |
| Segments.ScanSucceedsIff | src/announce.rs:132-174 | The scan succeeds exactly if some prefix of the segments all have an equal sign, no later one does, only a final one has two, and each parameter is acceptable. |
| Segments.PrintThenScan | src/announce.rs:115-174 | Printing any list of delimiter-free pairs and scanning it returns the list. |
| QueryStrings.LastValuesCount | src/announce.rs:142-167 | Parameters are taken exactly if each is acceptable alone; then the last value of each counts, in any order. |
| QueryStrings.ParseQuery | src/announce.rs:115-200 | The query, or the first error of the scan, or the first missing parameter. |
| QueryStrings.QueryAcceptedIff | src/announce.rs:115-200 | A string is accepted exactly if it is structured, its parameters are acceptable and no required one is missing. |
| QueryStrings.NameIff | src/announce.rs:142-167 | Which name stands for which parameter. |
| QueryStrings.MissingIsReported | src/announce.rs:176-200 | Of the required parameters that are missing the first one is reported. |
| QueryStrings.UnfitIsReported | src/announce.rs:142-167 | The first value that cannot be read is reported, under its own name. |
| QueryStrings.BadSegmentIsReported | src/announce.rs:132-141 | A segment without an equal sign before one that has any is a bad value, and one with two that is not the last a bad name. |
| QueryStrings.EncodedQueryIsRead | src/announce.rs:115-200 | Whatever a client encodes under the names of the protocol, in any order and mix of escapes, is read back: of the peers wanted at most the maximum, the default if nothing is said, and none on a stop. |
| Decimals.ParseOfDec | src/announce.rs:153-156 | A printed number is parsed back exactly if it is within the type's range. |
| Decimals.ParseIff | src/announce.rs:153-156 | A text is read as a number exactly if it is its decimal form behind zeros and at most one plus sign, within range. |
| Hex.HexRoundTrip | src/utils.rs:33-66 | Hex encoding and decoding are inverse, up to the case of the digits. |
| Hex.DigitsAre | src/utils.rs:33-66 | The sixteen digits in order of their values, in either case. |
| Hex.IndexInRange | src/utils.rs:16-28 | The counting argument behind index safety: position = bytes + 2 x escapes, and a decoded escape swallows no percent sign. |
| Hex.UrlencodedToBytes | src/utils.rs:7-31 | The decoder never leaves its input and returns the identifier the text spells. |
| Hex.IdentifierRoundTrip | src/utils.rs:7-31 | Any mix of literal bytes and escapes (section 2.1 of RFC 3986) spelling 20 bytes decodes to them. |
| Hex.WholeTextIff | src/utils.rs:12-28 | An accepted text is read to its end exactly if every percent sign in it starts an escape. |
| Hex.IgnoredTail | src/utils.rs:12-28 | A text whose tail is ignored. |
| Hex.InfoHashFromStr | src/model/info_hash.rs:16-30 | 40 hex digits are parsed pairwise; anything else is refused. |
| Hex.DisplayInfoHash | src/model/info_hash.rs:39-48 | The printed form is the hex encoding of each byte. |
| Hex.InfoHashRoundTrip | src/model/info_hash.rs:13-49 | A text parses to an info hash exactly if it is its printed form in any case. |
| Bencode.DecodeIff | src/announce.rs:698-752 | A strict decoder (section "bencoding" of BEP 3) accepts exactly the encodings of dictionaries with increasing keys. |
| Replies.AnnounceBody | src/announce.rs:698-752 | The body written piece by piece is one complete dictionary, and decodes to exactly the reply's fields, with every combination of the optional ones. |
| Replies.ErrorBody | src/error.rs:90-129 | The same for failures and critical warnings. |
| Replies.ReplyTells | src/announce.rs:698-752 | What stands under each key of a reply. |
| Replies.CriticalIff | src/error.rs:93-156 | The four errors told as warnings, and the three of them after which the client comes back in 30 seconds instead of 5400. |
| Replies.WarningTells | src/error.rs:94-113 | A critical warning is an empty swarm with a message. |
| Replies.FailureTells | src/error.rs:114-127 | All others are failures with their reason. |
| Replies.RepliesAreSorted | src/announce.rs:698 | The keys of every reply are strictly increasing. |
| Warnings.WarningCollection.IntoMessage | src/warning.rs:66-88 | The message is the audible warnings joined, without a trailing separator, or none, and fits the bytes set aside for it. |
| Warnings.SilentIff | src/warning.rs:16-26 | The client is told nothing exactly if it is warned of nothing but its rate. |
| Warnings.MessagesAre | src/warning.rs:66-88 | The messages of one and of two warnings. |
| Warnings.MessageFits | src/warning.rs:42-48 | The message fits the bytes set aside for it. |
| Rates.WeightDecays | src/rate.rs:44-54 | The weight of a full history decays as a whole. |
| Rates.Rate.Tick | src/rate.rs:44-54 | The incremental count equals the decayed sum over the full history, even if the clock jumps back. |
| Rates.WeightIsBounded | src/rate.rs:44-59 | With ticks at least d apart the count is at most 1/(1 - decay(d/window)). |
| Rates.SpacedEventsStayUnderLimit | src/rate.rs:56-59 | A limit at or above that bound is never exceeded. |
| Rates.BurstLimitIff | src/rate.rs:56-59 | Events at one instant stay under the limit exactly if they are at most as many as it says. |
| Rates.OverLimitThoughLightIff | src/rate.rs:56-59 | Events that are light enough by now are over the limit exactly if the count is, and would not be once decayed until now. |
| Rates.BurstStaysOverLimit | src/rate.rs:56-59 | Three events at once where one is allowed are over the limit at any later time. |
| Rates.RateCollection.Tick | src/rate.rs:116-121 | Every rate of a collection is ticked once. |
| Rates.TickedAt | src/rate.rs:116-121 | Each rate of a ticked list is the one in its place, ticked with its own reading of the clock. |

## Left out

- HTTP, header and user-agent checks, the client's address, connectivity probing and the tracing output: the address, the connectability and the time are inputs.
- SQL: only the additive or overwriting effect of each upsert is modelled, and a failed batch is taken to have no effect. Seed time is not modelled.
- The API that changes torrents, users and settings while the tracker is up, reloading the configuration, and loading the stores at start-up: runs start in a consistent state and keep their settings.
- Announces that overlap in time: `Tracker.Server.Announce` is one step; overlapping ones are covered by the interleaved runs of `SwarmRuns`, where the user's update comes later. A second flusher is not modelled.
- Tracker.Server.Announce: the rates of a user are kept beside the users, as a value; one that the API adds or removes is not modelled.
- TorrentStore.Swarm.Announce: the torrent is copied out of the store and back, so aliasing between entries of the store is not captured.
- Queues.Queue.Upsert: a queued record is a value, so its in-place merge is modelled by the record classes of `Updates` and by the merge function here.
- HistoryLedgers.BytesReachTheHistory: claimed while the sums fit 64 bits, as `UserLedgers.CreditsReachTheUser`.
- TorrentLedgers.CompletionsReachTheTorrent: claimed while the count fits 32 bits.
- Limits.PeerLimitHoldsIff: for one torrent, with announces and passes one after the other.
- KeyRuns.HistoryColumnsAddUp: only the summed columns; the others are in `HistoryConditions`.
- BalanceLedgers.BalanceReachesTheTorrent: claimed while the balance moves within a band narrower than 2^63.
- HistoryLedgers.LatestHistoryIsStored: only with batches that all land; what failures do is stated for the queue.
- SwarmRuns.CountersNeverDrift: claimed while each torrent has fewer than 2^31 peers and its counts, less what is outstanding, span less than 2^31.
- SwarmRuns.UserCountersNeverUndercount: claimed while no counter would pass 2^32 - 1.
- Rates.Rate.Tick: over real numbers and a positive window; the rounding of floating point, and parsing of the limits' text, are not modelled.
- Shutdown.Drain: nothing is queued during the drain; the background flusher, which may still be at work then, is not modelled.
- AllQueues.QueueSet.Flush: with nothing queued meanwhile; `Queues.Queue.FlushDuring` has the arrivals, for each queue.
- Queues.Queue.TakeBatches: the product of batches and size is unbounded here, and sorting is stable although the code does not need it to be.
- PeerLists.ChooseMultiple: which choice is made, and with which probability, is open.
- Statistics, the blacklist of agents, and `corrupt` and `key` beyond the announce log.

# Global transfer statistics of BiglyBT

This project models the core of `GlobalManagerStatsImpl`, the object that keeps the client's global transfer statistics. It is written in Dafny and its properties are proved. The core has four parts, each a sequence of state updates:

- **Byte counters and the smoothed rate.** Every recorded packet adds its length to a cumulative total and feeds the rate averages; LAN traffic is kept out of the no-LAN averages. On every smoothing tick the growth of the combined (data + protocol) totals since the last snapshot is fed to the smoothed send and receive averages, and the snapshot advances. A changed smoothing window replaces both averages first.
- **The per-peer ledger.** Every 60 ticks a reconciliation pass visits the peers removed since the last pass, then the peers of every download. For each non-LAN peer with traffic it attributes the bytes moved since the peer's ledger baseline to the peer's country, then advances the baseline. Peer-listener callbacks record an init snapshot (bytes carried over from an earlier connection) and a final snapshot (counters frozen at removal).
- **The country aggregator.** The per-country deltas of a pass go into per-country records, created on demand and never removed. The synthetic all-countries record, filed under the empty code, takes the sums of the positive deltas. Every record the pass did not touch has its latest values zeroed and a 0 fed to its averages.
- **The remote-statistics aggregator.** Per-country averages reported by remote peers are buffered by address and flushed every 10 ticks. Each sample enters a history ordered by time, and its positive averages are added to running sums keyed by originator country and target country. The oldest entries are then evicted while the history holds more than 100 entries or the oldest is more than ten minutes old.

`GlobalStats.GlobalManagerStats` is a class with the source's fields; its methods update them in place, with loops where the source loops. `GlobalStats.CountryDetails` is the mutable country record. Each method is proved against a specification function over values, one module per part:

- `PeerLedger`, where the reconciliation pass is `ReconcilePeer`/`ReconcileAll`;
- `CountryAggregation`, where a pass over the countries is `Aggregate`;
- `RemoteStatsAggregation`, where `addRemoteStats` is `AddRemote`.

The lemmas about these functions carry the properties the source promises.

Modelling conventions:

- Each `Average` / `MovingImmediateAverage` is modelled by the log of the samples fed to it (`seq<int>`).
- The three pieces of user data the source hangs on a peer object are side tables keyed by a peer identity: `peerInit`, `peerFinal` and `peerDetails`.
- The country lookup and a live peer's statistics are parameters: `PeerId -> seq<string>` and `PeerId -> PeerStats`.
- The monotonic clock reading used by eviction is the parameter `now` of `AddRemoteStats`. `FlushPendingStats` takes a clock `clock: nat -> int` and its k-th addition reads `clock(k)`, since every `addRemoteStats` call reads the clock again.
- The configured smoothing window and interval are parameters of `Tick`.
- `Tick` returns whether the reconciliation pass and the remote flush are due. These two dispatched jobs are the methods `Reconcile` and `FlushPendingStats`; each runs as one atomic step.

## Model

All source paths are below `core/src/com/biglybt/core/global/impl/`; each cell gives the full path.

| member | source | states |
|---|---|---|
| StatsTypes.ResolveCountry | core/src/com/biglybt/core/global/impl/GlobalManagerStatsImpl.java:602-604 | an empty lookup result gives the unknown code "??"; otherwise the first element is the country |
| StatsTypes.SumAppend | core/src/com/biglybt/core/global/impl/GlobalManagerStatsImpl.java:534-535 | feeding one more sample raises the sum of a sample log by that sample |
| GlobalStats.GlobalManagerStats.Discarded | core/src/com/biglybt/core/global/impl/GlobalManagerStatsImpl.java:261-263 | the discarded total grows by exactly `length`; its frame leaves every other field untouched |
| GlobalStats.GlobalManagerStats.DataBytesReceived | core/src/com/biglybt/core/global/impl/GlobalManagerStatsImpl.java:266-272 | the data-received total grows by exactly `length`; the average is fed `length`; the no-LAN average is fed `length` exactly when the traffic is not LAN; nothing else changes |
| GlobalStats.GlobalManagerStats.ProtocolBytesReceived | core/src/com/biglybt/core/global/impl/GlobalManagerStatsImpl.java:276-282 | as for data received, for the protocol-received total and its averages |
| GlobalStats.GlobalManagerStats.DataBytesSent | core/src/com/biglybt/core/global/impl/GlobalManagerStatsImpl.java:285-291 | as for data received, for the data-sent total and its averages |
| GlobalStats.GlobalManagerStats.ProtocolBytesSent | core/src/com/biglybt/core/global/impl/GlobalManagerStatsImpl.java:294-300 | as for data received, for the protocol-sent total and its averages |
| GlobalStats.GlobalManagerStats.constructor | core/src/com/biglybt/core/global/impl/GlobalManagerStatsImpl.java:498-503 | all totals zero; the eight rate-average logs and both smoothed logs empty; empty side tables; and only the synthetic record, filed under the empty code; the invariants hold |
| GlobalStats.GlobalManagerStats.Tick | core/src/com/biglybt/core/global/impl/GlobalManagerStatsImpl.java:519-541 | off a smoothing tick nothing changes. On one, a changed window resets both averages and adopts the configured interval, and the growth of the combined totals since the snapshot is fed. The snapshot then equals the combined totals, and the fed samples add up to the growth since the last reset (`SmoothingValid`). The pass is due iff the tick count is divisible by 60, the flush iff it is divisible by 10 |
| GlobalStats.GlobalManagerStats.ResetSmoothing | core/src/com/biglybt/core/global/impl/GlobalManagerStatsImpl.java:523-529 | the window and interval take the configured values, both smoothed averages start empty, and the sum invariant restarts from the current snapshot |
| GlobalStats.GlobalManagerStats.FeedSmoothing | core/src/com/biglybt/core/global/impl/GlobalManagerStatsImpl.java:531-538 | each average is fed the combined total minus the old snapshot; the snapshot becomes the combined total; the sum of the fed samples stays equal to the growth since the reset |
| GlobalStats.GlobalManagerStats.FeedSend | core/src/com/biglybt/core/global/impl/GlobalManagerStatsImpl.java:531-537 | the send average is fed the combined sent total minus the old snapshot, the snapshot becomes that total, and the send average still adds up to the growth since its reset |
| GlobalStats.GlobalManagerStats.FeedReceive | core/src/com/biglybt/core/global/impl/GlobalManagerStatsImpl.java:532-538 | the same, for the received total |
| GlobalStats.GlobalManagerStats.SaveInitialStats | core/src/com/biglybt/core/global/impl/GlobalManagerStatsImpl.java:171-186 | the init snapshot is stored iff sent + recv > 0; otherwise the table is unchanged |
| GlobalStats.GlobalManagerStats.PeerRemoved | core/src/com/biglybt/core/global/impl/GlobalManagerStatsImpl.java:188-210 | iff sent + recv > 0, the final snapshot is stored and the peer is appended to the removed list; otherwise both are unchanged |
| GlobalStats.GlobalManagerStats.Reconcile | core/src/com/biglybt/core/global/impl/GlobalManagerStatsImpl.java:549-750 | the pending removed list is emptied. The ledger equals that of `ReconcileAll` over the removed peers followed by every download's peers. The country records equal `Aggregate` of the old records and that pass's deltas, and the record invariant is kept |
| GlobalStats.GlobalManagerStats.ReconcilePeers | core/src/com/biglybt/core/global/impl/GlobalManagerStatsImpl.java:549-651 | the nested loop over the peer lists computes exactly the ledger and the per-country deltas of `ReconcileAll`, and the removed list is left empty |
| GlobalStats.GlobalManagerStats.CollectPeerLists | core/src/com/biglybt/core/global/impl/GlobalManagerStatsImpl.java:549-574 | the removed list is handed over whole and replaced by an empty one; the visited peers are the removed peers followed by every download's peers, in order |
| GlobalStats.GlobalManagerStats.VisitPeers | core/src/com/biglybt/core/global/impl/GlobalManagerStatsImpl.java:584-650 | visiting one list extends the pass by exactly those peers, in order |
| GlobalStats.GlobalManagerStats.VisitPeer | core/src/com/biglybt/core/global/impl/GlobalManagerStatsImpl.java:586-649 | one peer's step of the loop yields exactly `ReconcilePeer` |
| PeerLedger.DetailsFor | core/src/com/biglybt/core/global/impl/GlobalManagerStatsImpl.java:598-615 | a peer already in the ledger keeps its entry unchanged; a first-seen peer gets the resolved country ("??" when the lookup is empty). Its baseline is its init snapshot when it has one, else (0, 0) |
| PeerLedger.ReconcilePeer | core/src/com/biglybt/core/global/impl/GlobalManagerStatsImpl.java:586-649 | a counted peer (non-LAN, sent + recv > 0) gets a ledger record and nobody else does; a country already holding a delta keeps it |
| PeerLedger.ReconcileAll | core/src/com/biglybt/core/global/impl/GlobalManagerStatsImpl.java:582-650 | a pass only adds ledger records, only for the peers it visits, and never drops a country delta |
| PeerLedger.ReconcilePeerEffect | core/src/com/biglybt/core/global/impl/GlobalManagerStatsImpl.java:586-649 | a LAN-local peer or one without traffic changes nothing. A counted peer's baseline becomes its effective counters: the final snapshot when present, else the live ones. Its country's accumulated delta grows by the delta only when diff_sent + diff_recv > 0, and no other country's changes |
| PeerLedger.FlattenMembers | core/src/com/biglybt/core/global/impl/GlobalManagerStatsImpl.java:582-584 | a pass visits exactly the peers of its lists |
| PeerLedger.PassSettlesPeers | core/src/com/biglybt/core/global/impl/GlobalManagerStatsImpl.java:617-648 | after a pass, every visited counted peer's baseline equals its effective counters |
| PeerLedger.SettledPassIsIdle | core/src/com/biglybt/core/global/impl/GlobalManagerStatsImpl.java:625-648 | a pass over settled peers changes neither the ledger nor the deltas |
| PeerLedger.SecondPassContributesNothing | core/src/com/biglybt/core/global/impl/GlobalManagerStatsImpl.java:625-648 | a second pass with unchanged counters adds no delta and leaves the ledger as it was |
| PeerLedger.CarriedOverBytesDiscounted | core/src/com/biglybt/core/global/impl/GlobalManagerStatsImpl.java:606-626 | with init snapshot (50, 30) and counters (120, 30), the pass attributes (70, 0) to the peer's country and sets the baseline to (120, 30) |
| PeerLedger.AttributedTelescopes | core/src/com/biglybt/core/global/impl/GlobalManagerStatsImpl.java:625-648 | with counters that never decrease, the deltas attributed over successive passes add up to the last counters minus the first baseline |
| PeerLedger.PassesAttribute | core/src/com/biglybt/core/global/impl/GlobalManagerStatsImpl.java:586-649 | over successive passes a non-LAN peer with traffic keeps its first country, its baseline follows its counters, and its country is attributed exactly `Attributed` of its counters from the baseline the first pass found (record, init snapshot or nothing) |
| PeerLedger.PassesAttributeGrowth | core/src/com/biglybt/core/global/impl/GlobalManagerStatsImpl.java:586-649 | with counters that never decrease, those passes attribute to the country exactly the growth of the counters since that baseline |
| GlobalStats.GlobalManagerStats.ApplyCountryUpdates | core/src/com/biglybt/core/global/impl/GlobalManagerStatsImpl.java:653-750 | the country records become `Aggregate` of the old records and the deltas, and the record invariant is kept |
| GlobalStats.GlobalManagerStats.ApplyDeltasToRecords | core/src/com/biglybt/core/global/impl/GlobalManagerStatsImpl.java:653-706 | every country in the deltas gets its delta applied to its record, created when missing. The returned sums are the sums of the positive sent and received deltas |
| GlobalStats.GlobalManagerStats.ApplyOneDelta | core/src/com/biglybt/core/global/impl/GlobalManagerStatsImpl.java:656-705 | one more country is applied, and its positive parts join the running sums |
| GlobalStats.GlobalManagerStats.UpdateCountry | core/src/com/biglybt/core/global/impl/GlobalManagerStatsImpl.java:664-705 | only the country's record changes: created when missing, then given the delta; the map gains no object that was not fresh |
| GlobalStats.GlobalManagerStats.RecordFor | core/src/com/biglybt/core/global/impl/GlobalManagerStatsImpl.java:664-671 | the existing record is returned, or a fresh one is created and filed under the code; no record is removed |
| GlobalStats.GlobalManagerStats.UpdateTotal | core/src/com/biglybt/core/global/impl/GlobalManagerStatsImpl.java:708-736 | only the synthetic record changes, by `RecordTotal` of the two sums |
| GlobalStats.GlobalManagerStats.DecayRecords | core/src/com/biglybt/core/global/impl/GlobalManagerStatsImpl.java:738-750 | every record whose code is not in the updated set decays; the others are unchanged |
| GlobalStats.GlobalManagerStats.DecayOne | core/src/com/biglybt/core/global/impl/GlobalManagerStatsImpl.java:740-749 | one more record takes its decay step |
| GlobalStats.CountryDetails.constructor | core/src/com/biglybt/core/global/impl/GlobalManagerStatsImpl.java:668 | a new record has zero totals and latest values and empty averages |
| GlobalStats.CountryDetails.ApplyDelta | core/src/com/biglybt/core/global/impl/GlobalManagerStatsImpl.java:675-705 | sent and received are handled independently. A positive side becomes the latest value, is added to the total and is fed. A non-positive side zeroes the latest value and feeds the diff itself |
| GlobalStats.CountryDetails.ApplyTotal | core/src/com/biglybt/core/global/impl/GlobalManagerStatsImpl.java:710-736 | as `ApplyDelta`, except that a non-positive side feeds 0 |
| GlobalStats.CountryDetails.DecayLatest | core/src/com/biglybt/core/global/impl/GlobalManagerStatsImpl.java:742-748 | the latest values become 0, 0 is fed to both averages, and the totals are unchanged |
| CountryAggregation.ApplyDeltasStep | core/src/com/biglybt/core/global/impl/GlobalManagerStatsImpl.java:656-706 | applying the countries one at a time in any order gives one record update per country; a country's record is untouched until its turn |
| CountryAggregation.PartialStep | core/src/com/biglybt/core/global/impl/GlobalManagerStatsImpl.java:675-698 | the running sums grow by the positive part of each country's delta, whatever the order |
| CountryAggregation.RecordDelta | core/src/com/biglybt/core/global/impl/GlobalManagerStatsImpl.java:675-705 | per side: the latest value is the diff when positive and 0 otherwise, the total grows by exactly the latest value, and the raw diff is fed to the average; the code is kept |
| CountryAggregation.RecordTotal | core/src/com/biglybt/core/global/impl/GlobalManagerStatsImpl.java:708-736 | per side: as `RecordDelta`, except that the sample fed is the latest value, never negative |
| CountryAggregation.Decay | core/src/com/biglybt/core/global/impl/GlobalManagerStatsImpl.java:742-748 | the latest values become 0, 0 is fed to both averages, and the totals and code are unchanged |
| CountryAggregation.TotalsGrowPointwise | core/src/com/biglybt/core/global/impl/GlobalManagerStatsImpl.java:675-748 | after a pass each real country's total is its old total plus the positive part of its delta (new records start at 0, untouched ones gain 0) |
| CountryAggregation.Aggregate | core/src/com/biglybt/core/global/impl/GlobalManagerStatsImpl.java:653-750 | after a pass the records are exactly the old ones plus those of the updated countries: records are created, never removed |
| CountryAggregation.AggregateCountry | core/src/com/biglybt/core/global/impl/GlobalManagerStatsImpl.java:664-705 | a real country with a delta has, per side: latest = diff and total += diff when diff > 0; latest = 0 and total unchanged otherwise; the diff is fed either way |
| CountryAggregation.AggregateUntouched | core/src/com/biglybt/core/global/impl/GlobalManagerStatsImpl.java:738-750 | a record outside the pass has latest values 0, unchanged totals, and 0 fed to both averages |
| CountryAggregation.AggregateSynthetic | core/src/com/biglybt/core/global/impl/GlobalManagerStatsImpl.java:653-736 | the synthetic record's latest values are the sums of the positive per-country deltas (0 when there are none), and its totals grow by exactly those sums |
| CountryAggregation.EmptyCodeCountedTwice | core/src/com/biglybt/core/global/impl/GlobalManagerStatsImpl.java:664-736 | a delta filed under the empty code goes to the synthetic record twice: once as a country, then again as the total |
| CountryAggregation.SyntheticLatestIsSumOfCountries | core/src/com/biglybt/core/global/impl/GlobalManagerStatsImpl.java:675-736 | after a pass, the synthetic record's latest values are the sums of the real countries' latest values |
| CountryAggregation.SyntheticTotalsTrackCountries | core/src/com/biglybt/core/global/impl/GlobalManagerStatsImpl.java:675-736 | if the synthetic totals equal the sums of the real countries' totals before a pass, they still do after it |
| CountryAggregation.SyntheticSentTracksCountries | core/src/com/biglybt/core/global/impl/GlobalManagerStatsImpl.java:675-715 | the sent half of the above |
| CountryAggregation.SyntheticRecvTracksCountries | core/src/com/biglybt/core/global/impl/GlobalManagerStatsImpl.java:691-729 | the received half of the above |
| GlobalStats.GlobalManagerStats.ReceiveRemoteStats | core/src/com/biglybt/core/global/impl/GlobalManagerStatsImpl.java:843-848 | the sample is buffered under its address; a later sample from the same address replaces it |
| GlobalStats.GlobalManagerStats.FlushPendingStats | core/src/com/biglybt/core/global/impl/GlobalManagerStatsImpl.java:755-773 | the buffer is drained: every buffered address is taken out exactly once, in some order `order`, and the final history and maps are those of adding each address's sample in that order, the k-th addition at its own clock reading `clock(k)`. The history stays ordered and within 100 entries, and stored sums stay positive. When the buffered times are distinct and new, every stored sum again equals the sum over the retained entries, whatever the order |
| GlobalStats.GlobalManagerStats.FlushOne | core/src/com/biglybt/core/global/impl/GlobalManagerStatsImpl.java:764-771 | one addition of the flush: the address leaves the buffer and its sample is added after those already added, keeping the ordered, bounded history and the positive sums |
| GlobalStats.GlobalManagerStats.AddRemoteStats | core/src/com/biglybt/core/global/impl/GlobalManagerStatsImpl.java:883-1011 | the new state is exactly `AddRemote`: admission, then eviction at `now`. The history stays ordered and within 100 entries, and gains no time but the sample's. With a new time, the aggregate invariant is kept |
| GlobalStats.GlobalManagerStats.AggregateRemoteStats | core/src/com/biglybt/core/global/impl/GlobalManagerStatsImpl.java:1014-1017 | every published running sum is positive |
| GlobalStats.AddSample | core/src/com/biglybt/core/global/impl/GlobalManagerStatsImpl.java:914-935 | the admission loop computes `AddStats`: each positive average is added to its target, which is created when missing |
| GlobalStats.SubtractSample | core/src/com/biglybt/core/global/impl/GlobalManagerStatsImpl.java:965-1000 | the eviction loop computes `SubtractStats`. A missing target or a negative remainder is left as it is; a remainder of 0 removes the target |
| RemoteStatsAggregation.EntryFor | core/src/com/biglybt/core/global/impl/GlobalManagerStatsImpl.java:889-903 | the originator is "??" when the lookup is empty and its first element otherwise; the entry carries the sample's time and averages |
| RemoteStatsAggregation.Position | core/src/com/biglybt/core/global/impl/GlobalManagerStatsImpl.java:870-881 | an entry's place in the history is after every entry with an earlier time |
| RemoteStatsAggregation.InsertPresent | core/src/com/biglybt/core/global/impl/GlobalManagerStatsImpl.java:870-881 | an entry whose time is already in the history is not added (the comparator looks at the time alone) |
| RemoteStatsAggregation.InsertAbsent | core/src/com/biglybt/core/global/impl/GlobalManagerStatsImpl.java:870-903 | an entry with a new time is inserted in time order, and only its time is added |
| RemoteStatsAggregation.InsertSorted | core/src/com/biglybt/core/global/impl/GlobalManagerStatsImpl.java:870-903 | insertion keeps the history strictly ordered by time |
| RemoteStatsAggregation.Insert | core/src/com/biglybt/core/global/impl/GlobalManagerStatsImpl.java:903 | adding to the history either leaves it as it was or adds exactly the new entry, losing no entry |
| RemoteStatsAggregation.Admit | core/src/com/biglybt/core/global/impl/GlobalManagerStatsImpl.java:889-935 | admission files the sample under its originator, creating the map when missing, and leaves every other originator's map as it was |
| RemoteStatsAggregation.Contribution | core/src/com/biglybt/core/global/impl/GlobalManagerStatsImpl.java:921-923 | only positive averages contribute, so a contribution is never negative |
| RemoteStatsAggregation.PairSumConcat | core/src/com/biglybt/core/global/impl/GlobalManagerStatsImpl.java:903-935 | the sum over a history split in two is the sum of the two parts |
| RemoteStatsAggregation.AddStatsAdds | core/src/com/biglybt/core/global/impl/GlobalManagerStatsImpl.java:915-934 | admission raises each target by exactly the sample's positive averages for it and keeps stored values positive |
| RemoteStatsAggregation.AdmitConsistent | core/src/com/biglybt/core/global/impl/GlobalManagerStatsImpl.java:903-935 | with a time not yet in the history, admission keeps every stored sum equal to the sum over the retained entries |
| RemoteStatsAggregation.DuplicateTimeBreaksConsistency | core/src/com/biglybt/core/global/impl/GlobalManagerStatsImpl.java:870-935 | a sample whose time is already present is not added to the history, yet its averages are added to the sums, so the invariant breaks |
| RemoteStatsAggregation.SubtractStatsRemoves | core/src/com/biglybt/core/global/impl/GlobalManagerStatsImpl.java:965-999 | when every target holds at least the entry's contribution, eviction lowers each target by exactly that contribution and leaves no zero behind |
| RemoteStatsAggregation.SubtractStatsPositive | core/src/com/biglybt/core/global/impl/GlobalManagerStatsImpl.java:965-999 | stored values stay positive whatever eviction meets: a negative remainder is refused and a zero removed |
| RemoteStatsAggregation.EvictBounds | core/src/com/biglybt/core/global/impl/GlobalManagerStatsImpl.java:938-1010 | eviction drops a prefix. When it runs to its end, at most 100 entries remain and none is more than ten minutes old. It always drops the oldest entry of an over-full history |
| RemoteStatsAggregation.Evict | core/src/com/biglybt/core/global/impl/GlobalManagerStatsImpl.java:938-1010 | eviction never lengthens the history and never brings in an originator |
| RemoteStatsAggregation.EvictDropsOnlyExpired | core/src/com/biglybt/core/global/impl/GlobalManagerStatsImpl.java:941-1008 | every entry eviction drops had to go: at its position the rest of the history was over 100 entries or began more than ten minutes before `now` |
| RemoteStatsAggregation.EvictOriginators | core/src/com/biglybt/core/global/impl/GlobalManagerStatsImpl.java:955-1005 | an empty originator map left after eviction was already there and empty: a map that eviction empties is removed |
| RemoteStatsAggregation.EvictPositive | core/src/com/biglybt/core/global/impl/GlobalManagerStatsImpl.java:938-1010 | eviction keeps every stored sum positive |
| RemoteStatsAggregation.EvictConsistent | core/src/com/biglybt/core/global/impl/GlobalManagerStatsImpl.java:938-1010 | eviction keeps every stored sum equal to the sum over the retained entries |
| RemoteStatsAggregation.AddRemoteBounded | core/src/com/biglybt/core/global/impl/GlobalManagerStatsImpl.java:883-1011 | after a whole `addRemoteStats` the history is ordered and within 100 entries, even when eviction ends early, and it gains no time but the sample's |
| RemoteStatsAggregation.AddRemotePositive | core/src/com/biglybt/core/global/impl/GlobalManagerStatsImpl.java:883-1011 | every stored sum stays positive, duplicate times or not |
| RemoteStatsAggregation.AddRemoteConsistent | core/src/com/biglybt/core/global/impl/GlobalManagerStatsImpl.java:883-1011 | with a new time, every stored sum still equals the sum of positive averages over the retained entries for that pair |
| RemoteStatsAggregation.AddRemote | core/src/com/biglybt/core/global/impl/GlobalManagerStatsImpl.java:883-1011 | a whole `addRemoteStats` grows the history by at most one entry and brings in no originator but the sample's |
| RemoteStatsAggregation.ZeroSampleLeavesEmptyMap | core/src/com/biglybt/core/global/impl/GlobalManagerStatsImpl.java:905-912 | a sample whose averages are all 0 still creates its originator's map, so the published aggregate can hold an empty map |
| RemoteStatsAggregation.SlidingWindow | core/src/com/biglybt/core/global/impl/GlobalManagerStatsImpl.java:938-1010 | a newer sample pushes exactly the oldest entry out of a full window of recent samples |
| RemoteStatsAggregation.EarlyReturnKeepsStaleEntry | core/src/com/biglybt/core/global/impl/GlobalManagerStatsImpl.java:947-963 | when eviction meets an entry whose originator has no map, it stops there: from a consistent three-entry history of "X" (at 0, 1 and 2 ms, only the first sending anything), a sample from "Y" twenty minutes later evicts the first entry, dropping the emptied map of "X", stops at the second, and leaves the third in the history although it is long expired |
| RemoteStatsAggregation.WindowGrows | core/src/com/biglybt/core/global/impl/GlobalManagerStatsImpl.java:903-1010 | a history short of 100 entries takes a newer recent sample at its end and evicts nothing |
| RemoteStatsAggregation.NextHistory | core/src/com/biglybt/core/global/impl/GlobalManagerStatsImpl.java:883-1011 | one more recent sample on the window of a run of samples gives the window of the longer run |
| RemoteStatsAggregation.RecentSamplesHistory | core/src/com/biglybt/core/global/impl/GlobalManagerStatsImpl.java:883-1011 | after any run of samples with increasing times, all within ten minutes of the clock, the history is exactly the last 100 samples (all of them when fewer) |
| RemoteStatsAggregation.RecentSamplesFillWindow | core/src/com/biglybt/core/global/impl/GlobalManagerStatsImpl.java:883-1011 | over such a run the aggregate invariant holds throughout, so every stored pair is the sum of the positive averages of the last 100 samples |

## Left out

- The internals of `Average` and `MovingImmediateAverage`. They are floating-point library code not part of this model. The rate getters built on them (GlobalManagerStatsImpl.java:302-361, :482-494) are left out too. The model records only which samples each average is fed.
- The random `RemoteStats` generator in `tick` (:776-838): random test scaffolding built on `RandomUtils` and `InetAddress`.
- Listener registration and dispatch plumbing (:119-234), `SimpleTimer`, `AsyncDispatcher` queueing, `ConcurrentHashMap` thread safety and the `synchronized` block. Each dispatched job is one atomic method here.
- `load`/`save` through the configuration manager (:239-249), and the delegation in `getTotalSwarmsPeerRate` (:390-393).
- The iterator returned by `getCountryDetails` (:505-509). The records are reachable through the `countryDetails` field.
- `PeerUtils.getCountryDetails` is not part of this model; it becomes a lookup parameter. The configured smoothing window and interval are inputs, and so is the monotonic clock.
- `Debug.out` logging is a no-op. The control flow around it is kept, including the early `return` of eviction.
- Java `long`/`int` overflow is not modelled: all counters are unbounded integers.
- A peer's `PeerDetails` record is a value in a table keyed by the peer's identity, not an object shared by reference. No aliasing is modelled.
- The `TreeSet` history is a sequence kept in time order. Adding to it is the function `Insert`, not an in-place tree update.
- The null originator map and null lookup results are modelled as absence and the empty sequence.
- `GlobalStats.GlobalManagerStats.FlushPendingStats`: the order in which the buffered addresses are added is left unspecified (the out-parameter `order`), since the buffer is a hash map iterated in no defined order.
- `GlobalStats.GlobalManagerStats.AddRemoteStats`: the lookup is applied to the sample's address once, before admission.
- `RemoteStatsAggregation.RecentSamplesHistory` and `RemoteStatsAggregation.RecentSamplesFillWindow`: every call of the run is taken at one clock reading `now`. A run whose calls read a rising clock is covered step by step by `SlidingWindow`, `WindowGrows` and `AddRemoteConsistent` only.
- `GlobalStats.GlobalManagerStats.constructor`, `GlobalStats.GlobalManagerStats.Tick` and `GlobalStats.GlobalManagerStats.ResetSmoothing`: a smoothing interval of 0 is excluded. In the source, once a zero interval is adopted (:526), the remainder at :519 throws on every later tick. The model requires a non-zero interval wherever one is adopted, so it does not capture that failure.
- `GlobalStats.GlobalManagerStats.Discarded`, `GlobalStats.GlobalManagerStats.DataBytesReceived`, `GlobalStats.GlobalManagerStats.ProtocolBytesReceived`, `GlobalStats.GlobalManagerStats.DataBytesSent` and `GlobalStats.GlobalManagerStats.ProtocolBytesSent`: each update is one atomic step. The source adds to plain `long` fields from several I/O threads without synchronization (:262-299), so concurrent increments can be lost. The model does not capture those lost updates.

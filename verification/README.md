# Collector network reporting, verified

A Dafny model of the part of the collector that decides what is reported about network
connections, with proofs about whole runs of it.  `dafny verify dfyconfig.toml` checks
everything.

The model follows the pipeline:

* `Words`, `Addresses`, `AddressClasses`: 64-bit words as 64 bits, IP addresses, networks,
  mask words, containment, private and loopback ranges and which addresses they hold.
* `Cursors`, `Radix`, `Lookup`: the radix tree as a heap of nodes walked by a two-word
  cursor (insert, find, list, subset test, deep copy), and its answers against a linear
  scan of the networks it was built from.
* `Status`, `Delta`, `Runs`: packed statuses; the plain and the afterglow delta, the
  remembered state, forced closing; and runs of scrapes as seen by a consumer that only
  sees the deltas.
* `PrivateRanges`: the test whether known networks touch private ranges, on trees of both
  families, and the flag that is computed from it.
* `Normalization`, `Tracker`: normal forms of connections, the closing of connections
  when the external-IPs setting changes, kernel events, scrapes, snapshots.
* `Observations`: table, snapshots and memory as functions of the events and scrapes that
  reached the tracker.
* `Limits`, `Notifier`: token bucket, bucket cache, counter; rate-limited messages.
* `Sessions`, `EndToEnd`: the scrape loop over one tracker, and what the consumer of its
  messages holds.
* `KernelToConsumer`, `LostConnections`: what the consumer holds, read off kernel events and
  scrapes, and sessions that lose a connection.
* `DuplexMachine`, `Duplex`: the duplex gRPC client as a state machine, and the client
  object with its flag word as an implementation of it.
* `SignalStream`: the hand-off of the signal stream's writer between two threads.
* `Encoding`, `Utf8`: the wire form of networks, and the sanitising of UTF-8.

Main results, hardest first:

1. `EndToEnd.SessionIsExact` with `Sessions.RunSingle`: after any session of the scrape
   loop, with or without afterglow, with any events, scrapes, clock, limit and changes of
   the settings, a consumer that replays the messages holds exactly the recently active
   (or active) connections, less those that some report failed to bring and that have
   been due ever since.  `EndToEnd.MissedBecause` says why a report fails to bring one:
   its container had more opens than the limit and used it up, or the scrape closed it
   though it was fresh, or the clock, set back, revived it.
   `EndToEnd.SessionIsExactIff` gives the exact condition for a consumer that is right
   after every message.  `EndToEnd.ClosesAreReported`: of every connection that a snapshot
   ever held and that is not due, the consumer was told that it closed, with a time that is
   no earlier than where it was held last.
2. `KernelToConsumer.SessionIsObserved`: from kernel events to the consumer, for reports
   within the limits.  Without afterglow, whatever the events, scrapes, clocks and changes of
   the settings, a connection is held if and only if one that is reported alike is live: the
   event that decides among those that arrived after the last scrape opens it, or none
   decides and the scrape has seen it while nothing that was known of it is dated as late as
   the start of that scrape (`Observations.LiveAfterIff`).  With afterglow, for one
   configuration and fetch times that do not decrease, what is held is live or was observed
   within the period; the converse holds if and only if the snapshot that held the name last
   is not outdated, which observations in order exclude.
3. `LostConnections`: sessions that show the limits of this.  A live connection is lost for
   good when external IPs are disabled (exact condition: `Normalization.FreshIsClosedIff`,
   `EndToEnd.ScrapeIsFreshIff`); one whose event overtakes the scrape is not reported; an
   event that arrives rounds too late ends an afterglow early.
4. `Lookup.LongestPrefixMatch`, `Lookup.MixedFamilyMatch` and
   `Lookup.SubsetIsContainmentIff` over the pointer tree of `Radix`, with the exact
   conditions under which a tree of both families still answers like a scan, and
   `Normalization.PrivateKeepsNetwork`: the flag for private networks, computed on such
   trees, never changes how a private address is reported.
5. `DuplexMachine.RunsAreSafe`, `DuplexMachine.CallbackRun`, `SignalStream.WriterHandOff`:
   safety over every sequence of calls and completions, including those that the read
   callback makes, and over every interleaving.  `DuplexMachine.CallbackGetsAll` and
   `DuplexMachine.PolledGetsAll`: every message that a read brought is handed over once.
6. `Tracker.EventsConvergeIff`: exactly when the order of arrival of events does not matter.
7. `Limits.GrantsFromFirstUse`, `Limits.GrantsInWindow`, `Limits.KeyGrantsSinceFlush`,
   `Limits.KeyGrantsInWindow`: bounds of the token bucket and of the cache of buckets, with
   `Limits.GrantedIff` saying exactly which requests are refused.

How the source is read:

* Calls under the tracker's mutex are single steps.  Clock readings, procfs contents,
  completions and answers of the network are parameters.  The settings do not change
  between the fetch of a snapshot and the closing step of the same scrape; an event that
  arrives in between belongs to the next round.
* The maps are unordered in the source; the loops here pick keys in any order, so every
  contract of such a loop is also a proof that the order does not matter.
* Words are in host order; the byte swaps of the source only convert from and to the wire.
  The stored mask of a network is a function of its address and length.
* The difference of two non-negative 64-bit times does not overflow, so times are integers.
* A map under the advertised-endpoint equality is a map keyed by what is advertised
  (`Tracker.AdvertisedIsTheClass`).

Where the code and its comments disagree the model follows the code:

* NRadix.h:108-113 promises the smallest enclosing network; with both families in one
  tree a longer network of the other family hides it (`Lookup.ForeignNetworkHides`).
* NRadix.h:118-121 promises containment of some network; with both families in the trees
  the test can miss it (`Lookup.PrivateRangeMissed`) and invent it
  (`Lookup.ContainmentInvented`).
* ConnTracker.cpp:86-88 skips the lookup of an address that is to be kept when no known
  network is private.  For private addresses this finds the same; a public address that
  is not to be aggregated loses the length of its network
  (`Normalization.NonAggregatedKeepsNetworkIff`).
* DuplexGRPC.h:626-627 says that a duplicate finish is handled before; it is, while the
  first is pending, but once it is done the answer is an illegal state
  (`DuplexMachine.SecondFinishIsIllegal`).
* The active flag of the signal stream does not by itself promise a writer: a failed push
  drops the writer before it clears the flag (`SignalStream.ActiveWithoutWriter`).

## Model

| member | source | states |
|---|---|---|
| `Words.MaskedEqual` | collector/collector/lib/NetworkConnection.h:226-227 | words agree under the mask of their top bits iff those bits agree |
| `Addresses.BuildMask` | collector/collector/lib/NetworkConnection.h:179-192 | the constructor's word loop leaves in each mask word the network's bits of that word |
| `Addresses.ContainsByWords` | collector/collector/lib/NetworkConnection.h:209-233 | the word loop decides containment |
| `Addresses.ContainsIsPrefix` | collector/collector/lib/NetworkConnection.h:209-233 | containment is equality of family and agreement on the prefix |
| `Addresses.MappedContains` | collector/collector/lib/NetworkConnection.h:461-463 | an IPv4 network contains an address iff the mapped network contains the mapped address |
| `Addresses.MappingKeepsClassification` | collector/collector/lib/NetworkConnection.h:98-124 | public and loopback status of an IPv4 address and of its mapped form are the same |
| `AddressClasses.PublicV4Iff` | collector/collector/lib/NetworkConnection.h:442-453 | the private IPv4 addresses by their bytes |
| `AddressClasses.LocalV4Iff` | collector/collector/lib/NetworkConnection.h:112-114 | the loopback IPv4 addresses are those with first byte 127 |
| `AddressClasses.MappedForm` | collector/collector/lib/NetworkConnection.h:98-110 | the mapped form of an IPv4 address bit by bit |
| `AddressClasses.PublicV6Iff` | collector/collector/lib/NetworkConnection.h:455-470 | the private IPv6 addresses are fd00::/8 and the mapped private IPv4 ones |
| `AddressClasses.LocalV6Iff` | collector/collector/lib/NetworkConnection.h:115-121 | the loopback IPv6 addresses are ::1 and the mapped loopback ones |
| `AddressClasses.CanonicalIff` | collector/collector/lib/NetworkConnection.h:139-148 | the canonical external address of a family is the one with all bits set |
| `Cursors.AdvanceMoves` | collector/collector/lib/NRadix.cpp:68-83 | a step of the two-word cursor moves it from bit d to bit d+1, across words, up to 128 |
| `Cursors.GuardTells` | collector/collector/lib/NetworkConnection.h:197-205 | the net-mask test at bit d holds iff d is less than the prefix length |
| `Cursors.DirectionTells` | collector/collector/lib/NRadix.cpp:58-62 | the walk goes right iff bit d of the address is set |
| `Radix.NRadixTree.constructor` | collector/collector/lib/NRadix.h:78 | a new tree is well formed and empty |
| `Radix.NRadixTree.Descend` | collector/collector/lib/NRadix.cpp:54-84 | stops at the deepest existing node of the network's path |
| `Radix.NRadixTree.Extend` | collector/collector/lib/NRadix.cpp:97-122 | adds fresh nodes for the remaining bits and changes no stored network |
| `Radix.NRadixTree.Insert` | collector/collector/lib/NRadix.cpp:35-126 | refuses exactly length zero and prefixes already stored; else adds just this network; keeps every leaf populated |
| `Radix.NRadixTree.Walk` | collector/collector/lib/NRadix.cpp:138-180 | finds the deepest stored network on the path of the query |
| `Radix.NRadixTree.Find` | collector/collector/lib/NRadix.cpp:128-183 | the deepest network on the path if its family is the query's, else null, in trees of any contents |
| `Radix.NRadixTree.Collect` | collector/collector/lib/NRadix.cpp:189-200 | appends each network below a node exactly once |
| `Radix.NRadixTree.GetAll` | collector/collector/lib/NRadix.cpp:202-206 | lists the stored networks, each exactly once |
| `Radix.NRadixTree.SubsetUtil` | collector/collector/lib/NRadix.cpp:209-248 | exact answer of the double recursion from any path, in trees of any contents |
| `Radix.NRadixTree.IsAnyIPNetSubset` | collector/collector/lib/NRadix.cpp:254-260 | true iff some prefix of a network of the other tree has a network of each tree on its path and the deepest two match in family |
| `Radix.NRadixTree.IsEmpty` | collector/collector/lib/NRadix.cpp:250-252 | the three pointers are null iff no network is stored |
| `Radix.NRadixTree.CopyNode` | collector/collector/lib/NRadix.h:43-53 | a copied subtree mirrors the original node by node and shares no node with it |
| `Radix.NRadixTree.Copy` | collector/collector/lib/NRadix.h:88 | a copied tree stores the same networks in fresh nodes |
| `Lookup.FromList` | collector/collector/lib/NRadix.h:79-86 | the tree built from a list holds the first network of every prefix |
| `Lookup.ScanIsFirstLongest` | collector/collector/lib/NRadix.h:108-110 | the reference scan finds the first of the longest covering networks, and nothing iff none covers |
| `Lookup.DeepestIsScan` | collector/collector/lib/NRadix.cpp:35-187 | the deepest value on a path is what the family-blind scan of the insertion list finds |
| `Lookup.LongestPrefixMatch` | collector/collector/lib/NRadix.cpp:35-187 | with one family, a lookup equals the linear scan with containment, and is null iff that finds nothing |
| `Lookup.MixedFamilyMatch` | collector/collector/lib/NRadix.cpp:182 | with two families, it does so iff no foreign network is the longest prefix, or the scan finds nothing |
| `Lookup.ForeignNetworkHides` | collector/collector/lib/NRadix.cpp:182 | 10.0.0.0/8 contains 10.10.0.1 but is not found behind a0a::/16 |
| `Lookup.OrderDoesNotMatter` | collector/collector/lib/NRadix.h:79-86 | any insertion order of distinct prefixes gives the same answers |
| `Lookup.OwnAddressLookup` | collector/collector/lib/NRadix.cpp:128-187 | a stored network is found by its own address unless a foreign one is deeper on that path |
| `Lookup.SubsetTestMeans` | collector/collector/lib/NRadix.cpp:209-260 | the subset test in terms of lookups, for trees of any mix of families |
| `Lookup.SubsetIsContainmentIff` | collector/collector/lib/NRadix.h:118-121 | the test reports a containment that is not there iff a network lies between one of its family and foreign ones, and misses one iff all are hidden behind foreign networks |
| `Lookup.SubsetMeansContainment` | collector/collector/lib/NRadix.cpp:189-260 | it decides containment when neither tree has a network of one family below one of the other |
| `Lookup.OneFamilySubset` | collector/collector/lib/NRadix.cpp:189-260 | in particular for trees built from networks of one family |
| `Lookup.PrivateRangeMissed` | collector/collector/lib/NRadix.cpp:209-248 | 172.0.0.0/8 with ac00::/10 against 172.16.0.0/12: a containment that is missed |
| `Lookup.ContainmentInvented` | collector/collector/lib/NRadix.cpp:209-248 | 10.8.0.0/13 against 10.0.0.0/8 with a0a::/16: a containment that is not there |
| `Lookup.TwoWayTest` | collector/collector/lib/ConnTracker.cpp:39-41 | a test each way succeeds iff a network of one tree is found in the other, whatever the families |
| `PrivateRanges.ContainsPrivateNetwork` | collector/collector/lib/ConnTracker.cpp:39-41 | the test on the trees of both families |
| `PrivateRanges.PrivateIsUnmixed` | collector/collector/lib/NetworkConnection.h:442-490 | no private range of one family lies in one of the other |
| `PrivateRanges.TouchesPrivateIff` | collector/collector/lib/ConnTracker.cpp:39-41 | it never invents an overlap with a private range, and misses one exactly when all are hidden behind foreign networks |
| `PrivateRanges.ShortcutFindsNothing` | collector/collector/lib/ConnTracker.cpp:86-90 | when it is negative, no lookup of a private address finds a known network |
| `Status.PackingKeepsBoth` | collector/collector/lib/ConnTracker.h:18-29 | flag and time of a packed status are read back |
| `Status.WithStatusChangesFlagOnly` | collector/collector/lib/ConnTracker.h:31-41 | setting the flag leaves the time alone |
| `Status.MergePrefersActiveThenLater` | collector/collector/lib/ConnTracker.h:35-37 | the larger word is the active one and, among equals, the later one |
| `Delta.MergeNewIntoOld` | collector/collector/lib/ConnTracker.h:239-259 | first loop of the plain delta, key by key |
| `Delta.CloseVanished` | collector/collector/lib/ConnTracker.h:261-277 | second loop: vanished active keys become closes, vanished inactive ones go |
| `Delta.ComputeDelta` | collector/collector/lib/ConnTracker.h:237-278 | the in-place result is the plain delta, in any iteration order |
| `Delta.ReportNew` | collector/collector/lib/ConnTracker.h:297-306 | first loop of the afterglow delta, key by key |
| `Delta.ActivatedIfNeeded` | collector/collector/lib/ConnTracker.h:348-358 | a status reported as open is made active, any other is left alone |
| `Delta.ReportExpired` | collector/collector/lib/ConnTracker.h:308-316 | second loop: closes exactly for old keys that are gone, were recent and have expired |
| `Delta.ComputeDeltaAfterglow` | collector/collector/lib/ConnTracker.h:289-317 | the result is the afterglow delta, in any iteration order |
| `Delta.UpdateOldState` | collector/collector/lib/ConnTracker.h:215-235 | remembers the new state and the old entries still in their afterglow |
| `Delta.CloseConnections` | collector/collector/lib/ConnTracker.cpp:124-137 | matching entries leave the old state and join the delta as closes unless it already reports them |
| `Runs.LimitedStep` | collector/collector/lib/NetworkStatusNotifier.cpp:312-353 | what applying a cut-down report makes of a set: the next goal, less what was dropped, at fault or already missing |
| `Runs.LimitedReplay` | collector/collector/lib/NetworkStatusNotifier.cpp:312-353 | over any run of cut-down reports the consumer holds exactly the latest goal less the missing keys |
| `Runs.MissingIff` | collector/collector/lib/NetworkStatusNotifier.cpp:312-353 | a key is missing iff some report dropped it or was at fault for it and it has been a goal ever since |
| `Runs.ExactIff` | collector/collector/lib/NetworkStatusNotifier.cpp:312-353 | the consumer is exact after every report iff nothing was dropped and no report was at fault |
| `Runs.PlainStep` | collector/collector/lib/ConnTracker.h:237-278 | a plain delta leads from the active keys of the old state to those of the new one, without fault |
| `Runs.PlainReplay` | collector/collector/lib/NetworkStatusNotifier.cpp:257-273 | replaying plain deltas of any snapshots yields the active keys of the latest |
| `Runs.PlainDeltaIsNews` | collector/collector/lib/ConnTracker.h:237-278 | a plain delta carries the time of the snapshot, or of the old state for what is gone, and mentions a known key only if it opened, closed or closed later |
| `Runs.PlainClosesAreReported` | collector/collector/lib/ConnTracker.h:237-278 | every key that a snapshot ever held is active, or was reported closed no earlier than where it was held last, whichever opens are dropped |
| `Runs.StepForKey` | collector/collector/lib/ConnTracker.h:215-235 | what one scrape with afterglow and closing does to one key, at the consumer and in memory |
| `Runs.AfterglowStep` | collector/collector/lib/ConnTracker.h:215-400 | a scrape leads from recent keys to recent keys, at fault exactly for keys that are closed though fresh or revived by the clock |
| `Runs.StepIsExactIff` | collector/collector/lib/NetworkStatusNotifier.cpp:250-268 | a scrape keeps an exact consumer exact iff no fresh key is closed and none is revived by the clock |
| `Runs.ClosedIsForgotten` | collector/collector/lib/ConnTracker.cpp:124-137 | a closed key that is not in the snapshot is reported closed and forgotten |
| `Runs.AfterglowCourse` | collector/collector/lib/NetworkStatusNotifier.cpp:230-275 | every run follows its recent keys, whatever the clock and the closings |
| `Runs.ReplayIsExactIff` | collector/collector/lib/NetworkStatusNotifier.cpp:230-275 | over any run the consumer is exact after every scrape iff no scrape closes a fresh key or revives an expired one |
| `Runs.AfterglowReplay` | collector/collector/lib/NetworkStatusNotifier.cpp:230-275 | so it is over any run with a monotone clock and no closing of fresh keys |
| `Runs.BackwardClockBreaksReplay` | collector/collector/lib/ConnTracker.h:378-400 | a concrete run in which the clock goes back and a recent key is not reported |
| `Runs.ClosingFreshKeyBreaksReplay` | collector/collector/lib/ConnTracker.cpp:124-137 | a run that always holds an active key and closes it in its second scrape: it is remembered as recent and missing ever after |
| `Runs.MemoryIsHistory` | collector/collector/lib/ConnTracker.h:215-235 | the remembered status of a key is that of the last scrape that held it, within its afterglow |
| `Runs.RecentIsHistory` | collector/collector/lib/ConnTracker.h:289-400 | the recent keys are a stateless function of the fetch history |
| `Runs.ConsumerIsHistory` | collector/collector/lib/ConnTracker.h:289-400 | and so is the consumer's set |
| `Runs.AfterglowDeltaIsNews` | collector/collector/lib/ConnTracker.h:289-400 | an afterglow delta carries the time of the snapshot or the old state, shows as open exactly what is recent, and mentions a known key only if that changed or it closed later |
| `Runs.AfterglowClosesAreReported` | collector/collector/lib/ConnTracker.h:289-400 | every key that a snapshot ever held is recent, or was reported closed no earlier than where it was held last, for any clock, closings and dropped opens |
| `Normalization.CloseOnConfigChange` | collector/collector/lib/ConnTracker.cpp:139-165 | closes exactly the connections affected by a changed direction |
| `Normalization.NormalizedAddress` | collector/collector/lib/ConnTracker.cpp:74-112 | which address a connection is reported under |
| `Normalization.ReportedNetwork` | collector/collector/lib/ConnTracker.cpp:74-112 | the whole reported network in every case: address, family, length and kind |
| `Normalization.KnownLengthIsLongest` | collector/collector/lib/ConnTracker.cpp:90-97 | its length is that of the longest listed network that contains the address, unless a foreign one hides it |
| `Normalization.ReportedNetworkContains` | collector/collector/lib/ConnTracker.cpp:74-112 | a reported network of nonzero length contains the address |
| `Normalization.NormalFormIdentifies` | collector/collector/lib/ConnTracker.cpp:167-189 | exactly which connections share a normal form |
| `Normalization.RoleByPorts` | collector/collector/lib/ConnTracker.cpp:167-172 | the role of a normal form, for UDP in terms of the port ranges |
| `Normalization.NormalForm` | collector/collector/lib/ConnTracker.cpp:174-189 | which port, address and setting each end of a normal form shows |
| `Normalization.EnablingClosesFreshIff` | collector/collector/lib/ConnTracker.cpp:143-151 | on enabling, a fresh connection is closed iff the address of its known network, or else its own, is the canonical one |
| `Normalization.DisablingClosesFreshIff` | collector/collector/lib/ConnTracker.cpp:114-119 | on disabling, iff it is reported as a known network whose own address is found in none, or in one at the canonical address |
| `Normalization.FreshIsClosedIff` | collector/collector/lib/ConnTracker.cpp:139-189 | exactly when a freshly normalised connection satisfies the closing predicate |
| `Normalization.StaleFormIsClosedIff` | collector/collector/lib/ConnTracker.cpp:139-165 | a connection whose normal form changes with the setting is closed under the old form, unless its address is the all-ones one and the setting is disabled |
| `Normalization.HiddenNetworkIsClosed` | collector/collector/lib/ConnTracker.cpp:90-119 | a longer foreign network on the path of a known network's own address makes its connections be closed on disabling |
| `Normalization.LiveConnectionIsClosed` | collector/collector/lib/ConnTracker.cpp:90-119 | 48.0.0.0/8 and 3000::/16 known: 48.8.8.8 is such a connection |
| `Normalization.PrivateKeepsNetwork` | collector/collector/lib/ConnTracker.cpp:74-93 | private addresses are reported with the length of their known network, flag or not |
| `Normalization.NonAggregatedKeepsNetworkIff` | collector/collector/lib/ConnTracker.cpp:83-93 | an address that is kept is reported with the length of its network iff its family has no flag, or the known networks touch a private range, or there is none |
| `Normalization.NonAggregatedLosesNetwork` | collector/collector/lib/ConnTracker.cpp:83-93 | 48.0.0.0/8 known and 48.8.8.0/24 not to be aggregated: 48.8.8.8 is reported with length 0 |
| `Normalization.OneFamilyIsSeparated` | collector/collector/lib/ConnTracker.cpp:345-354 | known networks of one family meet the assumptions below |
| `Normalization.KnownNetworkStays` | collector/collector/lib/ConnTracker.cpp:90-97 | the own address of a known network is not normalised away |
| `Normalization.FreshIsNotClosed` | collector/collector/lib/ConnTracker.cpp:139-189 | no freshly normalised connection satisfies the closing predicate |
| `Tracker.EventsSettle` | collector/collector/lib/ConnTracker.cpp:194-201 | a key ends with its stored status or the latest later event; times never decrease |
| `Tracker.EventsWin` | collector/collector/lib/ConnTracker.cpp:194-201 | what events leave of a key, read off their list: the first of the latest events if it is later than what is stored, else what is stored |
| `Tracker.EventsConvergeIff` | collector/collector/lib/ConnTracker.cpp:43-47 | every arrival order of the events leads to the same state iff no two different events are both the latest on their key and later than what is stored |
| `Tracker.EventsConverge` | collector/collector/lib/ConnTracker.cpp:43-47 | in particular when events on one key with one time agree |
| `Tracker.SimultaneousEventsDoNotConverge` | collector/collector/lib/ConnTracker.cpp:197 | two events of one time: the first to arrive wins |
| `Tracker.ScrapeMeaning` | collector/collector/lib/ConnTracker.cpp:49-72 | after a scrape a key is active iff it was scraped and was absent or had an earlier time |
| `Tracker.FetchState` | collector/collector/lib/ConnTracker.cpp:233-263 | the snapshot merges kept entries with equal normal form, or without normalising picks one; every kept entry is returned, and exactly inactive entries are dropped |
| `Tracker.FetchedIsUnique` | collector/collector/lib/ConnTracker.cpp:241-260 | the snapshot does not depend on the iteration order |
| `Tracker.FetchedStatus` | collector/collector/lib/ConnTracker.cpp:246-249 | a merged status is active iff a preimage is, with the latest time of the active ones, or of all |
| `Tracker.AdvertisedIsTheClass` | collector/collector/lib/ConnTracker.cpp:20-37 | endpoints are equal as advertised iff what is advertised of them is equal |
| `Tracker.NoFilterFetchesAll` | collector/collector/lib/ConnTracker.h:171-191 | without filters everything is fetched |
| `Tracker.LookupIsScanIff` | collector/collector/lib/ConnTracker.h:186-191 | a lookup of an address succeeds iff some listed network contains it, exactly if none is hidden |
| `Tracker.FilterIsScanIff` | collector/collector/lib/ConnTracker.h:186-191 | a connection is kept iff neither of its ports is ignored and no ignored network contains its remote address, exactly if none is hidden |
| `Tracker.EndpointName` | collector/collector/lib/ConnTracker.h:180-184 | what is reported of an endpoint: container, protocol, port, family and advertised process |
| `Tracker.EndpointNamesIdentify` | collector/collector/lib/ConnTracker.h:180-184 | exactly which endpoints are reported as one |
| `Tracker.ConnectionTracker.UpdateConnection` | collector/collector/lib/ConnTracker.cpp:43-47 | a kernel event is one event on the state |
| `Tracker.ConnectionTracker.Update` | collector/collector/lib/ConnTracker.cpp:49-72 | a scrape acts on both maps as `ScrapeMeaning` says |
| `Tracker.ConnectionTracker.FetchConnState` | collector/collector/lib/ConnTracker.cpp:267-295 | the fetched map is the snapshot under the current settings, and what stays is what is active |
| `Tracker.ConnectionTracker.FetchEndpointState` | collector/collector/lib/ConnTracker.cpp:297-330 | the same for endpoints, by what is advertised of them |
| `Tracker.ConnectionTracker.UpdateKnownIPNetworks` | collector/collector/lib/ConnTracker.cpp:345-376 | builds the tree of all families and sets for each listed family the flag of `TouchesPrivate` |
| `Tracker.FlattenConcat` | collector/collector/lib/ConnTracker.cpp:345-354 | the lists of the families are inserted one after the other |
| `Observations.LiveAfterIff` | collector/collector/lib/ConnTracker.cpp:43-72 | a round leaves a key active iff an event after the scrape opens it, or none decides and the scrape has seen it with nothing on it dated as late as the scrape |
| `Observations.TableIsObserved` | collector/collector/lib/ConnTracker.cpp:194-201 | every entry of the table is dated at an event or scrape on it |
| `Observations.ActiveIsLive` | collector/collector/lib/ConnTracker.cpp:233-263 | a snapshot shows a name as active iff a connection of that name is live, for any events, scrapes and times |
| `Observations.SnapshotIsObserved` | collector/collector/lib/ConnTracker.cpp:241-260 | a snapshot is dated at an observation of the name, and what the round observes shows in it |
| `Observations.LastHeldMeans` | collector/collector/lib/ConnTracker.h:215-235 | the last snapshot to hold a name is dated at an observation, and is not active unless it is the latest |
| `Observations.RecentIsObservedIff` | collector/collector/lib/NetworkStatusNotifier.cpp:220-291 | recently active is live or observed within the period, for any events, scrapes and times; the converse holds iff the snapshot that held the name last is not outdated |
| `Observations.OrderlyIsNotOutdated` | collector/collector/lib/ConnTracker.cpp:194-201 | it is not if rounds observe the name in order and a live name is dated as late as anything observed |
| `Observations.TimelyIsSeen` | collector/collector/lib/ConnTracker.cpp:49-72 | when events on a name arrive between the scrapes between which they happened, its live connections are those the last scrape has seen |
| `Observations.TimelyIsOrderly` | collector/collector/lib/ConnTracker.cpp:49-72 | and its observations are in order |
| `Limits.CallKeepsCovered` | collector/collector/lib/RateLimit.cpp:24-44 | one request keeps the grants covered by one burst and one more per accounted period |
| `Limits.GrantsFromFirstUse` | collector/collector/lib/RateLimit.cpp:16-53 | tokens stay in range and grants from t0 to T are at most burst * (1 + (T - t0) / refill) |
| `Limits.GrantsInWindow` | collector/collector/lib/RateLimit.cpp:16-53 | any window of length L grants at most burst * (2 + L / refill) |
| `Limits.AnswerIff` | collector/collector/lib/RateLimit.cpp:24-44 | a request is granted iff it asks for no more than a whole burst, if a period has passed or the bucket is new, else than what is left |
| `Limits.TokensAreLeft` | collector/collector/lib/RateLimit.cpp:24-44 | what is left is the burst less what was granted since the bucket was filled |
| `Limits.GrantedIff` | collector/collector/lib/RateLimit.cpp:24-44 | a request is refused iff with what was granted since then it would exceed the burst |
| `Limits.BurstIsGranted` | collector/collector/lib/RateLimit.cpp:24-44 | from first use, requests for no more than a burst in all are all granted |
| `Limits.RateLimitCache.Allow` | collector/collector/lib/RateLimit.cpp:66-75 | the cache never exceeds its capacity; a flush empties it and passes; else only the key's bucket is charged |
| `Limits.KeysAreIndependent` | collector/collector/lib/RateLimit.cpp:66-75 | between flushes every key runs on a bucket of its own |
| `Limits.KeyGrants` | collector/collector/lib/RateLimit.cpp:66-75 | so every key meets the bound between flushes |
| `Limits.FlushStartsOver` | collector/collector/lib/RateLimit.cpp:66-75 | after any requests the cache and the grants are those of the run since the last flush |
| `Limits.KeyGrantsSinceFlush` | collector/collector/lib/RateLimit.cpp:66-75 | over any requests the cache stays within its capacity and every key meets the bound since the last flush |
| `Limits.KeyGrantsInWindow` | collector/collector/lib/RateLimit.cpp:66-75 | and the bound of a window in every window without a flush |
| `Limits.FewKeysDoNotFlush` | collector/collector/lib/RateLimit.cpp:66-75 | requests of no more keys than the capacity never flush |
| `Limits.KeyGetsBurst` | collector/collector/lib/RateLimit.cpp:66-75 | and then every key gets at least its burst |
| `Limits.AnswerToKey` | collector/collector/lib/RateLimit.cpp:66-75 | a new key that finds the cache full is granted and empties it; otherwise the other keys are left alone |
| `Limits.CountLimiter.Allow` | collector/collector/lib/RateLimit.cpp:83-90 | counts the key and allows its first `count` requests |
| `Notifier.AddConnections` | collector/collector/lib/NetworkStatusNotifier.cpp:312-353 | every close is sent, opens sent per container are the minimum of opens and limit, sent plus held back is the size of the delta |
| `Notifier.AddContainerEndpoints` | collector/collector/lib/NetworkStatusNotifier.cpp:362-374 | every endpoint update is sent once |
| `Notifier.CreateInfoMessage` | collector/collector/lib/NetworkStatusNotifier.cpp:293-310 | no message iff both deltas are empty |
| `Notifier.DroppedOverLimit` | collector/collector/lib/RateLimit.cpp:83-90 | an open is held back only if its container has more opens than the limit and used it up |
| `Notifier.SentInFullIff` | collector/collector/lib/NetworkStatusNotifier.cpp:312-353 | a report goes out in full iff no container has more opens than the limit |
| `Sessions.Deliver` | collector/collector/lib/ConnTracker.cpp:43-47 | kernel events reach the table in order |
| `Sessions.Learn` | collector/collector/lib/NetworkStatusNotifier.cpp:193-217 | what reaches the tracker before the fetch of a round |
| `Sessions.Report` | collector/collector/lib/NetworkStatusNotifier.cpp:250-275 | deltas, closing, message and memory as the protocol says, in both modes |
| `Sessions.ScrapeCycle` | collector/collector/lib/NetworkStatusNotifier.cpp:241-275 | one round fetches from the tracker, clears it, reports and remembers |
| `Sessions.ComparedWith` | collector/collector/lib/NetworkStatusNotifier.cpp:228-256 | a scrape compares with the setting of the last round that fetched, or the first one |
| `Sessions.RunSingle` | collector/collector/lib/NetworkStatusNotifier.cpp:220-291 | a session over one tracker: each fetching round sends what is due cut to the limit, and memory and tables are those of the protocol |
| `EndToEnd.SessionCourse` | collector/collector/lib/NetworkStatusNotifier.cpp:220-291 | a session follows its goals, at fault only in afterglow mode and only where a scrape is |
| `EndToEnd.SessionIsExact` | collector/collector/lib/NetworkStatusNotifier.cpp:220-291 | any session in both modes: the consumer holds exactly the goal less the missing connections, and exactly the active endpoints |
| `EndToEnd.NoZombies` | collector/collector/lib/NetworkStatusNotifier.cpp:336-339 | it never holds more than the goal |
| `EndToEnd.MissedBecause` | collector/collector/lib/NetworkStatusNotifier.cpp:312-353 | a connection is dropped only over a used-up limit of its container, and a report is at fault for it iff the scrape closes it though it is fresh or the clock revives it |
| `EndToEnd.ClosesAreReported` | collector/collector/lib/NetworkStatusNotifier.cpp:312-353 | every connection that a snapshot of a session ever held is in the goal, or the consumer was told that it closed, no earlier than where it was held last |
| `EndToEnd.EndpointClosesAreReported` | collector/collector/lib/NetworkStatusNotifier.cpp:362-374 | the same for endpoints |
| `EndToEnd.SessionIsExactIff` | collector/collector/lib/NetworkStatusNotifier.cpp:220-291 | it is exact after every message iff every report is within its limit and no scrape is at fault |
| `EndToEnd.ScrapeIsFreshIff` | collector/collector/lib/NetworkStatusNotifier.cpp:247-256 | a scrape closes none of its own keys iff no connection that passes the filter is closed at once |
| `EndToEnd.StaleNamesAreForgotten` | collector/collector/lib/ConnTracker.cpp:139-165 | a scrape closes nothing if the setting is the same as before, and else reports as closed and forgets every remembered name that a connection has no longer |
| `EndToEnd.SaneScrapeIsFresh` | collector/collector/lib/NetworkStatusNotifier.cpp:247-256 | which holds for separated known networks and remote addresses other than the canonical one |
| `EndToEnd.SaneSessionIsHistory` | collector/collector/lib/NetworkStatusNotifier.cpp:220-291 | then, within the limits and with a monotone clock, the consumer holds a function of the fetch history through all changes of the settings; without afterglow, always |
| `KernelToConsumer.TablesAreRounds` | collector/collector/lib/ConnTracker.cpp:43-72 | the tracker's tables after any rounds are those of their events and scrapes |
| `KernelToConsumer.PlainGoalIsLive` | collector/collector/lib/NetworkStatusNotifier.cpp:193-291 | without afterglow the goal is what is reported of the live connections, for any events, scrapes, clocks and settings |
| `KernelToConsumer.RecentGoalIsObservedIff` | collector/collector/lib/NetworkStatusNotifier.cpp:193-291 | with afterglow the goal is live or observed within the period, and is all of that iff the name is not outdated |
| `KernelToConsumer.GoalIsObserved` | collector/collector/lib/NetworkStatusNotifier.cpp:193-291 | in particular for observations of the name in order |
| `KernelToConsumer.SessionIsObserved` | collector/collector/lib/NetworkStatusNotifier.cpp:193-291 | what the consumer holds is reported alike with a connection that is live or was observed within the period; the converse holds always without afterglow, and with it iff the name is not outdated |
| `KernelToConsumer.TimelyGoalIsSeen` | collector/collector/lib/NetworkStatusNotifier.cpp:193-291 | for timely events live means seen by the last scrape, in both modes |
| `KernelToConsumer.EveryConnectionIsReported` | collector/collector/lib/NetworkStatusNotifier.cpp:193-291 | with one configuration, every connection that was ever observed and passes the filter is in the goal or was reported closed |
| `KernelToConsumer.EndpointsAreLive` | collector/collector/lib/NetworkStatusNotifier.cpp:262-263 | the consumer holds exactly the live endpoints, in every session |
| `KernelToConsumer.ListenersAreReported` | collector/collector/lib/NetworkStatusNotifier.cpp:262-263 | an endpoint is held iff a live one of the same container, family, port, protocol and advertised process is not ignored |
| `KernelToConsumer.EndpointIsLiveIff` | collector/collector/lib/ConnTracker.cpp:53-70 | an endpoint is live iff the last scrape has seen it and what is left of it is older than that scrape |
| `LostConnections.LiveConnectionIsLost` | collector/collector/lib/ConnTracker.cpp:139-165 | disabling external IPs closes a live connection, and no later round opens it again, for any number of rounds, period and limits |
| `LostConnections.OvertakenConnectionIsLost` | collector/collector/lib/ConnTracker.cpp:194-201 | an event dated after the start of the scrape and delivered before its result: the open connection is never reported without afterglow |
| `LostConnections.OldEventEndsAfterglow` | collector/collector/lib/ConnTracker.h:215-235 | an event that arrives rounds too late outdates a name and ends its afterglow early |
| `DuplexMachine.StepIsSafe` | collector/collector/lib/DuplexGRPC.h:611-717 | every call and completion keeps pending equal to outstanding, pending and done exclusive, finish issued at most once, errors followed by finish or shutdown |
| `DuplexMachine.AnswerMeans` | collector/collector/lib/DuplexGRPC.h:611-637 | the answer is OK iff the operation was started, and each other answer iff its obstacle is the first |
| `DuplexMachine.CallsSucceedIff` | collector/collector/lib/DuplexGRPC.h:415-425 | when writes, their end, finish and shutdown succeed |
| `DuplexMachine.RunsAreSafe` | collector/collector/lib/DuplexGRPC.h:588-717 | so does every sequence of them from construction on |
| `DuplexMachine.NoReadInside` | collector/collector/lib/DuplexGRPC.h:681-688 | no read completes inside the callback, so it is not entered again |
| `DuplexMachine.ClosingRunIssuesNothing` | collector/collector/lib/DuplexGRPC.h:622-630 | after finish or shutdown was requested nothing is issued any more, and the queue reports shutdown only when it is empty |
| `DuplexMachine.ClosingRunIsBounded` | collector/collector/lib/DuplexGRPC.h:548-553 | completions left plus still outstanding equal what was outstanding |
| `DuplexMachine.CallbackRun` | collector/collector/lib/DuplexGRPC.h:681-688 | a callback gets messages, then at most one null |
| `DuplexMachine.NothingAfterNull` | collector/collector/lib/DuplexGRPC.h:681-688 | and nothing after it |
| `DuplexMachine.CallbackGetsAll` | collector/collector/lib/DuplexGRPC.h:681-688 | a callback gets the result of every read, in order and once |
| `DuplexMachine.PolledGetsAll` | collector/collector/lib/DuplexGRPC.h:555-582 | a polled client hands over every message that a read brought, once, less the one in its buffer |
| `DuplexMachine.ReadDelivers` | collector/collector/lib/DuplexGRPC.h:569-582 | a call to read takes the message in the buffer and starts the next read unless closing |
| `DuplexMachine.CreatedStarts` | collector/collector/lib/DuplexGRPC.h:588-599 | a new client starts the stream and the first read |
| `DuplexMachine.ReadingGoesOn` | collector/collector/lib/DuplexGRPC.h:602-608 | in every run, until the client is closing, a read is under way or its message waits to be taken or is with the callback |
| `DuplexMachine.FlagsAreHistory` | collector/collector/lib/DuplexGRPC.h:696-703 | the error flag says that a completion failed, and an operation was started iff it is pending or done |
| `DuplexMachine.DuplicateFinish` | collector/collector/lib/DuplexGRPC.h:615-630 | a second finish is pending while the first is, an illegal state once it is done |
| `DuplexMachine.SecondFinishIsIllegal` | collector/collector/lib/DuplexGRPC.h:626-630 | a run that gets that answer |
| `Duplex.DuplexClient.constructor` | collector/collector/lib/DuplexGRPC.h:588-599 | starts as the machine's initial state, which is safe |
| `Duplex.DuplexClient.DoAsync` | collector/collector/lib/DuplexGRPC.h:611-637 | implements the machine's step on the flag word |
| `Duplex.DuplexClient.Shutdown` | collector/collector/lib/DuplexGRPC.h:415-425 | implements the machine's shutdown |
| `Duplex.DuplexClient.Perform` | collector/collector/lib/DuplexGRPC.h:657-679 | what the callback does to the client is a possible step of the machine |
| `Duplex.DuplexClient.HandleRead` | collector/collector/lib/DuplexGRPC.h:681-688 | the callback's calls are a run of the machine inside the read, then the next read starts |
| `Duplex.DuplexClient.ProcessEvent` | collector/collector/lib/DuplexGRPC.h:696-717 | implements the machine's completion, with the run of the callback in it |
| `Duplex.DuplexClient.Drain` | collector/collector/lib/DuplexGRPC.h:548-553 | the drain loop ends, whatever the callback does, stays safe and issues nothing |
| `SignalStream.RunsKeepInvariants` | collector/collector/lib/SignalServiceClient.cpp:12-87 | the ownership and log invariants hold in every interleaving |
| `SignalStream.WriterHandOff` | collector/collector/lib/SignalServiceClient.cpp:12-87 | never two owners; the pusher works on a live writer with its own context; an active stream has one exactly until the pusher dropped it |
| `SignalStream.ContextReplacedWithoutWriter` | collector/collector/lib/SignalServiceClient.cpp:29-31 | the context is replaced only while there is no writer |
| `SignalStream.RefreshBeforeWrite` | collector/collector/lib/SignalServiceClient.cpp:68-73 | nothing is written on a stream before its refresh |
| `SignalStream.ActiveWithoutWriter` | collector/collector/lib/SignalServiceClient.cpp:78-80 | a reachable state has the flag set and no writer |
| `SignalStream.ActiveOnlyIfStarted` | collector/collector/lib/SignalServiceClient.cpp:32-41 | a stream becomes active only after a start that succeeded; one that failed is given up |
| `SignalStream.NoStreamWithoutChannel` | collector/collector/lib/SignalServiceClient.cpp:22-27 | nothing is made without a channel, and a failed wait for it ends the thread |
| `SignalStream.FailedWriteEndsStream` | collector/collector/lib/SignalServiceClient.cpp:74-84 | a failed write is the last thing on its stream, which is not active once the push is over |
| `SignalStream.PushMeans` | collector/collector/lib/SignalServiceClient.cpp:61-87 | a push does nothing on an inactive stream, asks for a refresh on a new one, and else writes |
| `Encoding.ReadNetworks` | collector/collector/lib/NetworkStatusNotifier.cpp:45-58 | decodes every whole tuple in order |
| `Encoding.TuplesInOrder` | collector/collector/lib/NetworkStatusNotifier.cpp:45-58 | there are as many networks as whole tuples, each read from its own |
| `Encoding.NetRoundTrip` | collector/collector/lib/NetworkStatusNotifier.cpp:416-421 | address and length survive, including 128 with its sign flip and clamp |
| `Encoding.WireBytes` | collector/collector/lib/NetworkStatusNotifier.cpp:416-421 | addresses go out most significant byte first, networks with their length behind |
| `Encoding.WireFormV4` | collector/collector/lib/NetworkStatusNotifier.cpp:416-421 | a.b.c.d/n goes out as these five bytes |
| `Encoding.SentEndpointIsRead` | collector/collector/lib/NetworkStatusNotifier.cpp:400-426 | port and address of an endpoint are recovered; nothing is sent iff it has neither |
| `Encoding.NetworksRoundTrip` | collector/collector/lib/NetworkStatusNotifier.cpp:45-58 | reading the concatenated encodings of any well-formed networks of a family gives them back |
| `Encoding.SentNetworkIsRead` | collector/collector/lib/NetworkStatusNotifier.cpp:401-425 | an endpoint's network is sent iff its length is not zero, and is read back |
| `Utf8.SpanIsLongest` | collector/collector/lib/Utility.cpp:225 | the span is the longest valid prefix |
| `Utf8.CharLenIff` | collector/collector/lib/Utility.cpp:225 | a code point is at the front iff the encoding of some scalar value is |
| `Utf8.SanitizeUTF8` | collector/collector/lib/Utility.cpp:224-242 | nothing iff the input is valid, else the sanitised copy |
| `Utf8.SanitizedIsValid` | collector/collector/lib/Utility.cpp:224-242 | a sanitised string is valid, and is the input itself iff that is valid |
| `Utf8.SanitizedDiffers` | collector/collector/lib/Utility.cpp:235-239 | replaced by question marks are exactly the bytes that a reader meets where no code point starts; every code point met survives |
| `Utf8.SanitizedIsStable` | collector/collector/lib/Utility.cpp:224-242 | sanitising it again changes nothing |

## Left out

- `IPNet::operator==`, which is not symmetric between addresses and networks: maps are keyed by the structure of a connection.
- Failed writes and reconnection of the notifier: one session is modelled; the next one starts with nothing remembered, on the same tracker.
- Waiting, deadlines and polling of the duplex client (`DoSync`, `Poll`): they only process completions, whose every sequence is covered.
- Destroying the duplex client from inside its own read callback.
- `Stop` and the start of the threads of the signal client, the liveness of its wait, and weaker memory orders than sequential consistency.
- The injectivity of the protobuf form of a connection, statistics and logging.
- `TimeLimiter::Tokens`, which repeats the refill formula of `AllowN`; clocks that go back are excluded for the token bucket.
- `PerContainerRateLimit`: floating-point rounding; the limit of each message is any integer here.
- Base64, cgroup parsing, the procfs scraper, configuration loading, HTTP, Prometheus, Kubernetes and NATS plumbing: input and output.
- The Go policy evaluators: boolean combinations of conditions, without state.
- Runs.AfterglowReplay: assumes scrape times that do not decrease, since the system clock may be set back, and no closing of fresh keys; `Runs.ReplayIsExactIff` says exactly what goes wrong otherwise.
- Normalization.FreshIsNotClosed: assumes that no remote address and no known network has the canonical all-ones address, and that no network of the other family lies deeper on the path of a known network's own address; `Normalization.FreshIsClosedIff` is the exact condition.
- EndToEnd.SaneScrapeIsFresh: makes the same assumptions for the connections that pass the filter; `EndToEnd.ScrapeIsFreshIff` is the exact condition.
- KernelToConsumer.SessionIsObserved: with afterglow assumes one configuration and fetch times that do not decrease, since other settings give a connection another name; through changes of both, `EndToEnd.SessionIsExact` and `EndToEnd.SaneSessionIsHistory` hold for the snapshots as fetched.
- KernelToConsumer.GoalIsObserved: assumes observations of the name in order; `KernelToConsumer.RecentGoalIsObservedIff` is exact without that.
- KernelToConsumer.TimelyGoalIsSeen: assumes events that arrive between the scrapes between which they happened; `KernelToConsumer.PlainGoalIsLive` and `KernelToConsumer.RecentGoalIsObservedIff` are exact without that.
- Observations.TimelyIsSeen: makes the same assumption for one name; `Observations.LiveAfterIff` is exact without it.

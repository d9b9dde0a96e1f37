# Verified model of interledger-rs

This project models, in Dafny, the parts of the Interledger node in which a wrong step costs money or
routes: the CCP routing protocol, the STREAM sender, the byte-level codecs, and the balance service.
It proves what they keep over every run and every input.

## What is modelled

**Routing (crates/interledger-ccp, crates/interledger-router).** A node keeps an epoch-versioned forwarding
table and an append-only log of its changes, and sends peers one merged update for a range of epochs.
`RouteLog` proves that the merged update means the same as the epochs one by one. `Replication` and
`ReplicaRuns` put one speaker and one replica on a network that loses, repeats and reorders updates, and
prove convergence, gap recovery and the log discipline, also when the speaker was restarted under a new
table id and the replica still holds routes from before. The receiver's `filter_routes` does not commute
with the merging: a withdrawal that the sender drops because the prefix came back is lost on a peer that
rejects the new route (`FilterCanStrandRoute`). The project proves the exact condition, for one update
(`FilterCommutesWithCompaction`) and for all runs (`ConvergesIffFaithful`), and that without a filter, or
with one that judges by prefix alone, every run converges (`AlwaysConverges`). `StrandedRoute`
builds a run of two nodes that ends so. `ForwardingLog` relates the log to the table that it describes; they
differ exactly when a route is passed on under a prefix that is not its own (`CommitMirrorsIffExact`), and a
filtering replica holds the current route exactly when its filter accepts it. `Network` runs any number of
nodes and proves loop freedom and that best-route choice does not depend on hash-map order;
`NetworkReplicas` carries convergence over to it, and says which routes of a node's forwarding table
another one holds. `Staging` and `Recomputation` prove what `update_best_routes` leaves in both tables: a checked prefix need not lead to its
best account afterwards, nor the forwarding table follow the local one, and the exact conditions are given
in terms of the state before.
`Backoff` gives the exact schedule of a child that stays down, after any reset.

**STREAM sender (crates/interledger-stream).** The congestion controller and the payment counters are
objects; `StreamRuns` interleaves prepares, fulfils and rejects in any order and proves conservation of
the source amount and the rate guarantee. Packet sizing holds for every amount except when the unchecked
addition of the dust spreading overflows, and then the packet is empty (`PacketIsUseful`); a run that gets
there is `LargePaymentStalls`. The source computes windows, dust and failure rates in f64: `Floats` defines
rounding to an f64, and `RoundedIsNearest` and `RoundedIsRepresentable` say that it is.

**Codecs (crates/interledger-packet, crates/interledger-btp, crates/interledger-ccp).** `Oer` models the
length-prefixed primitives with their strict mode (the `strict`/`roundtrip-only` features), and states the
laws that the packet formats rely on as predicates over a record of primitives, `Wire`. `OerIsLawful`,
`OerIsLocal`, `OerLengthFirst` and `StrictOerIsCanonical` prove that the primitives obey them, so that
every lemma about a format that starts from a lawful `Wire` holds of the real encoding; `IlpOverOer` and the
main lemmas of `Btp` and `CcpCodec` are stated for it. `Formats`, `PacketFormats` and `TextFormats` tell the
formats byte by byte, without the codecs, and prove that the codecs write and accept these.

**Balances (crates/interledger-service-util, crates/interledger-store).** `Balances` models the store's
scripts, `BalanceRuns` interleaves packets, settlements, refunds and incoming settlements,
`BalanceHistories` tells every balance from the steps of the run, and
`TimerQueue` models the loop that keeps settlement timeouts.

## Conventions

- A Rust `String` is its UTF-8 bytes. An account id is a string under lexicographic order.
- The iteration order of a hash map is a parameter, and results are proved for every order.
- The auth hash, the calendar library and the exchange rate are parameters. A time is its formatted
  form, of any length, and a rest below a millisecond. Rates are exact reals, as the source's `BigRational`.
- u64 operations that the source leaves unchecked wrap around (`Congestion.Wrapped`).
- A u64 that the source converts to f64 is rounded to nearest, ties to even; so is each product and quotient.
- A concurrent protocol is a state machine with one step per critical section; `After` runs a sequence of
  steps, and a theorem about `After` is about every interleaving.
- Every lemma switches automatic induction off, so that each proof is the one written down.
- A method is tied to a specification function of the same step, and the lemmas are about that function.

## Model

| member | source | states |
|---|---|---|
| `PrefixMaps.Resolve` | crates/interledger-ccp/src/routing_table.rs:30-37 | a lookup finds a value exactly when some key is a prefix of the address, and then the value at a longest such key |
| `PrefixMaps.LastLongestIsMaximal` | crates/interledger-ccp/src/routing_table.rs:30-37 | taking the last entry of maximal length of the matching ones finds a longest match, or none if there is none |
| `PrefixMaps.ResolveAnyOrder` | crates/interledger-ccp/src/routing_table.rs:30-37 | the lookup gives the same result for every iteration order of the map |
| `PrefixMaps.NextHop` | crates/interledger-router/src/router.rs:62-94 | exact match and scan, in any map order, pick the value at the longest matching key, and nothing if no key matches |
| `RoutingTables.RouterNextHop` | crates/interledger-router/src/router.rs:62-94 | over the simplified table the router picks the account of the route that the full table would find |
| `RoutingTables.RoutingTable.constructor` | crates/interledger-ccp/src/routing_table.rs:55-61 | a new table has the given id, epoch 0 and no routes |
| `RoutingTables.RoutingTable.IncrementEpoch` | crates/interledger-ccp/src/routing_table.rs:82-86 | the epoch goes up by one and the old one is returned |
| `RoutingTables.RoutingTable.SetRoute` | crates/interledger-ccp/src/routing_table.rs:89-92 | the prefix maps to the new hop, all others are unchanged |
| `RoutingTables.RoutingTable.AddRoute` | crates/interledger-ccp/src/routing_table.rs:100-104 | the route is stored under its prefix, and reported as new exactly when that was absent |
| `RoutingTables.RoutingTable.DeleteRoute` | crates/interledger-ccp/src/routing_table.rs:95-97 | the prefix is gone, and reported exactly when it was present |
| `RoutingTables.RoutingTable.DeleteRoutes` | crates/interledger-ccp/src/routing_table.rs:166-171 | the withdrawal loop removes exactly these prefixes and reports those that were present |
| `RoutingTables.RoutingTable.AddRoutes` | crates/interledger-ccp/src/routing_table.rs:173-179 | the addition loop leaves the last route per prefix and reports the prefixes that were absent |
| `RoutingTables.RoutingTable.HandleUpdateRequest` | crates/interledger-ccp/src/routing_table.rs:120-188 | gap, stale and accepted updates are told apart by the epoch, or by 0 under a new table id; the new table, the error and the exact set of changed prefixes |
| `RoutingTables.AfterUpdate` | crates/interledger-ccp/src/routing_table.rs:120-188 | under a new table id, whatever the old epoch, an update from epoch 0 is applied over the old routes and ends at its epoch, and one from a later epoch leaves the routes and epoch 0; under the known id it is applied exactly if its range holds the epoch |
| `RouteLog.CompactionPreservesMeaning` | crates/interledger-ccp/src/server.rs:817-841 | on every table, applying the merged update equals replaying each epoch in turn |
| `RouteLog.MergedAt` | crates/interledger-ccp/src/server.rs:817-841 | for each prefix, the merged update has the combined effect of the epochs |
| `RouteLog.MergedDisjoint` | crates/interledger-ccp/src/server.rs:817-841 | no prefix is both announced and withdrawn by a merged update |
| `RouteLog.CompactionComposes` | crates/interledger-ccp/src/server.rs:817-841 | merging a..b and then b..c acts like merging a..c |
| `RouteLog.MergedFrom` | crates/interledger-ccp/src/server.rs:817-841 | a merged update announces only routes of the log or the own route, unchanged |
| `Replication.UpdateIsMergedSegment` | crates/interledger-ccp/src/server.rs:785-853 | an update for from..to is the merge of that part of the log, with the own route as its head when from is 0, under the table's id and epoch and the speaker's address |
| `Replication.FilteredEffect` | crates/interledger-ccp/src/server.rs:316-344 | what replaying only the accepted routes does to a prefix, in terms of the merged update |
| `Replication.MergedWithdraws` | crates/interledger-ccp/src/server.rs:828-840 | the merged update withdraws a prefix exactly when some epoch did and nothing that is still announced added it back |
| `Replication.FilterCommutesWithCompaction` | crates/interledger-ccp/src/server.rs:316-344 | filtering after merging equals filtering each epoch, if and only if the table holds no prefix whose withdrawal the merge dropped and the filter needed |
| `Replication.ReplayOverlap` | crates/interledger-ccp/src/routing_table.rs:158-179 | replaying epochs that a table already holds, and then more, is the same as going on from where it was |
| `Replication.UpdateAdvances` | crates/interledger-ccp/src/routing_table.rs:144-179 | an update whose range overlaps what was applied brings the replica exactly to the end of the range, if and only if no stale prefix is held |
| `Replication.StaleFromEpoch` | crates/interledger-ccp/src/routing_table.rs:144-179 | an update that reaches further back than a replica needs has no stale prefix among those it holds that the update it needs has not |
| `ReplicaRuns.AnswerRange` | crates/interledger-ccp/src/server.rs:279-289 | the answer to a control request ends at the speaker's epoch and starts at the known epoch, or at 0 for another table id |
| `ReplicaRuns.RunKeepsInv` | crates/interledger-ccp/src/server.rs:685-690 | with a step for each critical section, an answer only to a request that the replica made, and a replica that may hold a table from before the speaker was restarted, over every run: every update in the network is a merged segment of the log, and the replica is as before or follows the new table id |
| `ReplicaRuns.ReplicaConverges` | crates/interledger-ccp/src/routing_table.rs:120-188 | under any loss, repetition and reordering, a replica at epoch e of a faithful log holds the own route and the replay of 0..e over what it had before a restart, or has accepted nothing yet |
| `ReplicaRuns.ConvergesIffFaithful` | crates/interledger-ccp/src/server.rs:370-395 | all reachable states of a speaker with this log have the replica in sync, if and only if no update that a replica can ask for leaves out a withdrawal it needs |
| `ReplicaRuns.PrefixDeterminedIsFaithful` | crates/interledger-ccp/src/server.rs:316-344 | a filter that judges by prefix alone makes every log faithful |
| `ReplicaRuns.AlwaysConverges` | crates/interledger-ccp/src/routing_table.rs:120-188 | without a filter, or with one that judges by prefix, every run converges |
| `ReplicaRuns.GapRecovery` | crates/interledger-ccp/src/server.rs:437-467 | an update with a gap changes nothing; the answer to the control request, whenever it is created, starts at the replica's epoch, or at 0 after a restart, is accepted by a replica that has not moved, and brings it to the epoch and routes the speaker had when it answered |
| `ReplicaRuns.LeftoverStays` | crates/interledger-ccp/src/routing_table.rs:125-133 | a route from before a restart stays in the replica unless the new log withdraws its prefix or has an acceptable route for it |
| `ReplicaRuns.AnsweredExactly` | crates/interledger-ccp/src/server.rs:263-289 | in every run exactly the Sync requests that the replica made are answered, from its last known epoch or, for another table id, from 0 |
| `ReplicaRuns.LogDiscipline` | crates/interledger-ccp/src/server.rs:685-690 | with commits falling between reading the epoch, swapping it and creating the update: the epoch is the log length, and the broadcasts cover every epoch below the last one sent exactly once, without gap or overlap |
| `ReplicaRuns.BroadcastCatchesUp` | crates/interledger-ccp/src/server.rs:685-690 | in every run, a broadcast that no commit interrupts covers everything committed since the last one |
| `Staging.PlanMeaning` | crates/interledger-ccp/src/server.rs:535-579 | a plan withdraws exactly the checked prefixes without a route, and changes exactly those whose local lookup leads to another account than the best route, to that route |
| `Staging.CommittedAt` | crates/interledger-ccp/src/server.rs:582-645 | what any plan leaves at a prefix: nothing if withdrawn, else the change in the local table, and in the forwarding table exactly when it was advertised and the staged lookup led nowhere or elsewhere |
| `ForwardingLog.CommitMirrorsIffExact` | crates/interledger-ccp/src/server.rs:590-645 | committing a plan keeps the log a description of the forwarding table, if and only if each change that is passed on is to a route for the prefix that it is filed under |
| `ForwardingLog.PlanMirrorsIffExact` | crates/interledger-ccp/src/server.rs:520-645 | the same for every plan that the code makes, of this or an earlier state |
| `ForwardingLog.LogDescribesTable` | crates/interledger-ccp/src/server.rs:520-645 | over any number of recomputations the log describes the table after each, if and only if all that is passed on is filed under its own prefix |
| `ForwardingLog.ConfiguredElsewhereParts` | crates/interledger-ccp/src/server.rs:892-911 | a node that recomputes a prefix configured to an account of another address files it under the prefix but announces it under the address, and its log and table part |
| `ForwardingLog.HoldsCurrentIffAccepted` | crates/interledger-ccp/src/server.rs:316-344 | a filtering replica in sync holds the speaker's current route at a prefix, if and only if there is none or the filter accepts it |
| `ForwardingLog.ReplicaHoldsTable` | crates/interledger-ccp/src/server.rs:785-853 | a filtering replica that caught up has the forwarding table's route at a prefix other than the speaker's address, if and only if there is none or the filter accepts it |
| `ForwardingLog.RejectedReplacementLingers` | crates/interledger-ccp/src/server.rs:316-344 | a replacement that the filter rejects leaves the older route in the replica, with no withdrawal |
| `BestRoute.ConfiguredIsLongest` | crates/interledger-ccp/src/server.rs:892-911 | a configured route applies exactly when a dotted ancestor is configured, and the longest ancestor wins |
| `Basics.JoinSplit` | crates/interledger-ccp/src/server.rs:897-899 | joining the dotted segments of a prefix gives the prefix |
| `BestRoute.BestBeatsAll` | crates/interledger-ccp/src/server.rs:925-957 | among different accounts the fold finds the one hop that beats all others by relation, path length and id |
| `BestRoute.BestAnyOrder` | crates/interledger-ccp/src/server.rs:925-957 | the fold gives the same hop for every order of the candidates |
| `BestRoute.GetBestRouteForPrefix` | crates/interledger-ccp/src/server.rs:886-961 | the two loops compute: a configured ancestor, else an exact local route, else the best incoming candidate |
| `BestRoute.BestRouteIsChosen` | crates/interledger-ccp/src/server.rs:886-961 | the best route leads directly to the account at the longest configured dotted ancestor; else directly to the local account; else it is some incoming table's longest match that no other table's beats, by relation, path length and then id; and there is none exactly if no table has a key above the prefix |
| `BestRoute.TextLessMeaning` | crates/interledger-ccp/src/server.rs:945-949 | the comparison of ids is lexicographic |
| `RouteNodes.FilterCanStrandRoute` | crates/interledger-ccp/src/server.rs:316-344 | for every acceptable route: withdrawing it and announcing it again from the speaker through the receiver removes it epoch by epoch but leaves it in place when merged |
| `RouteNodes.HoldsOffered` | crates/interledger-ccp/src/server.rs:316-395 | after an update that it accepts, a node holds exactly the prefixes that it held and that were not withdrawn, and those offered with a path around it, in its scheme, longer than that, and not under its own address |
| `RouteNodes.SchemeMeaning` | crates/interledger-packet/src/address.rs:169-174 | the scheme of an address is what comes before its first dot |
| `StrandedRoute.RunStrandsRoute` | crates/interledger-ccp/src/server.rs:817-841 | from any two fresh nodes of one scheme a run of recomputations and deliveries leaves the receiver, up to date, with a route that the speaker withdrew while the speaker now leads through the receiver |
| `RouteNodes.RouteManager.constructor` | crates/interledger-ccp/src/server.rs:101-127 | a new route manager has empty tables, an empty log and separate table objects |
| `RouteNodes.RouteManager.CreateRouteUpdate` | crates/interledger-ccp/src/server.rs:785-853 | the nested loops build the merged update of the range |
| `RouteNodes.RouteManager.OpenTable` | crates/interledger-ccp/src/server.rs:383-389 | an account gets an empty table if it has none, and no other table changes |
| `RouteNodes.RouteManager.ApplyUpdate` | crates/interledger-ccp/src/server.rs:390-395 | only the sender's incoming table changes, as an accepted or rejected update demands |
| `RouteNodes.RouteManager.HandleRouteUpdate` | crates/interledger-ccp/src/server.rs:378-395 | the update is filtered and applied to that account's table; an error is returned exactly on a gap |
| `RouteNodes.RouteManager.PlanBestRoutes` | crates/interledger-ccp/src/server.rs:533-579 | under read locks: the prefixes with a different best account, and those with no route any more |
| `RouteNodes.RouteManager.StageBetterRoutes` | crates/interledger-ccp/src/server.rs:590-633 | both tables and the announced routes after the write loop |
| `RouteNodes.RouteManager.CommitBestRoutes` | crates/interledger-ccp/src/server.rs:582-645 | the new tables and one new log entry per epoch, none when nothing changed |
| `Network.RunKeepsSound` | crates/interledger-ccp/src/server.rs:592-633 | in every reachable world all routes, plans and messages have loop-free paths over known nodes, and incoming tables hold only their own account's routes |
| `Network.LoopFreedom` | crates/interledger-ccp/src/server.rs:616-633 | every route anywhere has a duplicate-free path no longer than the number of nodes, and an auth hashed once per hop from zero |
| `Network.NoRouteThroughOwner` | crates/interledger-ccp/src/server.rs:334-339 | no local or incoming table holds a path through its owner |
| `Network.BestRouteAnyOrder` | crates/interledger-ccp/src/server.rs:922-957 | in every reachable world the best route for a prefix is the same for every order of the incoming tables |
| `Network.CandidatesOf` | crates/interledger-ccp/src/server.rs:922-924 | the candidates are one per matching table, under that table's account, so their accounts differ |
| `NetworkReplicas.RunKeepsInv` | crates/interledger-ccp/src/server.rs:785-853 | over every run of a network with distinct table ids: each update of a node is a merged segment of its log, and each table fed by it alone has its id and no later epoch |
| `NetworkReplicas.ListenerInSync` | crates/interledger-ccp/src/server.rs:378-395 | in every reachable world, the incoming table that a node feeds holds the replay of that node's log up to the table's epoch, if the log is faithful for the receiver's filter |
| `NetworkReplicas.ListenerHoldsTable` | crates/interledger-ccp/src/server.rs:316-344 | such a table that has caught up has the sender's forwarding route at a prefix other than the sender's address, if and only if there is none or the receiver accepts it |
| `NetworkReplicas.ListenerHoldsExactly` | crates/interledger-ccp/src/server.rs:316-344 | if no route of the sender leads through the receiver, the table that has caught up holds exactly the acceptable routes of the sender's forwarding table |
| `NetworkReplicas.ExactRunMirrors` | crates/interledger-ccp/src/server.rs:590-645 | in every run in which a node passes on only routes filed under their own prefix, its log describes its forwarding table |
| `NetworkReplicas.EpochIsLogLength` | crates/interledger-ccp/src/server.rs:634-645 | in every run a node's epoch is the length of its log, and every update carries it |
| `Recomputation.UpdateInstallsBest` | crates/interledger-ccp/src/server.rs:520-645 | after planning and committing: exactly what each checked prefix has in the local and in the forwarding table, and that all other prefixes are untouched |
| `Recomputation.WithdrawnExactly` | crates/interledger-ccp/src/server.rs:575-578 | a recomputation withdraws exactly the checked prefixes without a configured ancestor, a local account or an incoming key above them |
| `Recomputation.EntryReplacedIff` | crates/interledger-ccp/src/server.rs:600-633 | in any list of prefixes, a forwarding entry is replaced by the best hop, if and only if the local table led elsewhere, the entry is another account's, and the route is in the node's scheme, not all of it, and not one of its own accounts other than its address |
| `Recomputation.WrittenIffFills` | crates/interledger-ccp/src/server.rs:600-633 | a prefix gets a forwarding entry, if and only if at one of its places in the list the longest key above it, old or filled by then, leads nowhere or elsewhere; decided without staging any table |
| `Recomputation.ForwardingAfter` | crates/interledger-ccp/src/server.rs:520-645 | the whole forwarding table after a recomputation, told from the state before |
| `Recomputation.FillsIffLedElsewhere` | crates/interledger-ccp/src/server.rs:600-633 | a prefix with no checked prefix above it is filled, if and only if it is checked, its best route is new and advertised, and the old forwarding table led nowhere or elsewhere |
| `Recomputation.RecomputeMirrorsIff` | crates/interledger-ccp/src/server.rs:520-645 | a recomputation keeps the log a description of the forwarding table, if and only if every prefix that it fills has a best route for that very prefix |
| `Recomputation.FollowsIff` | crates/interledger-ccp/src/server.rs:157-158 | at a checked prefix the forwarding table is the local one with this node in front, if and only if there is no route, or the best one is passed on, or the entry was there already, all told from the state before |
| `Recomputation.UnadvertisedLeavesEntry` | crates/interledger-ccp/src/server.rs:600-633 | a prefix configured to an account below the node's own address gets a new local entry but keeps the peer's forwarding entry |
| `Recomputation.LookupAfter` | crates/interledger-ccp/src/server.rs:520-645 | after a recomputation a lookup leads to an account, if and only if the longest key that is left or newly filed, told from the state before, does |
| `Recomputation.CheckedLeadsToBest` | crates/interledger-ccp/src/server.rs:556-577 | a checked prefix leads to the account of its best route afterwards, if and only if it was a key or led elsewhere, or the longest key left above it leads there |
| `Recomputation.CheckedCanLeadAstray` | crates/interledger-ccp/src/server.rs:556-577 | for all such prefixes and accounts: checking a prefix together with one above it can leave it leading to an account that is not its best |
| `Recomputation.OnlyPublicRoutes` | crates/interledger-ccp/src/server.rs:316-344 | in every reachable world a node holds only routes in its own scheme and outside its own address, and announces only routes that start with itself and are neither the whole scheme nor its own accounts |
| `Recomputation.CommittedPolite` | crates/interledger-ccp/src/server.rs:600-633 | committing any plan announces only public routes |
| `Backoff.AfterEvents` | crates/interledger-ccp/src/server.rs:666-677 | over rounds and Sync requests the skip counter never exceeds the maximum, which fits a byte |
| `Backoff.ResetBy` | crates/interledger-ccp/src/server.rs:265-277 | a Sync request always ends the backoff, and a round exactly when the account was tried and reached |
| `Backoff.FailureSchedule` | crates/interledger-ccp/src/server.rs:739-774 | after every history that leaves no backoff, the n-th consecutive failure of a child falls in round (n-1)(n+2)/2 and exactly n skipped rounds follow, for n up to 255 |
| `Backoff.SkipsThenFails` | crates/interledger-ccp/src/server.rs:739-774 | after a failure with maximum n, n rounds are skipped, and the next attempt has maximum n+1 or 255 |
| `Backoff.Broadcaster.AccountsToSkip` | crates/interledger-ccp/src/server.rs:666-677 | exactly the accounts with a positive counter are skipped, and every counter goes down by one |
| `Backoff.Broadcaster.RecordResults` | crates/interledger-ccp/src/server.rs:739-774 | a failing child backs off further, a delivery resets, and other accounts keep their state |
| `Backoff.Broadcaster.ResumeBroadcasts` | crates/interledger-ccp/src/server.rs:265-277 | a Sync control request resets exactly that account |
| `Congestion.CongestionController.Prepare` | crates/interledger-stream/src/congestion.rs:58-67 | the amount in flight grows by the packet, wrapping around |
| `Congestion.CongestionController.Fulfill` | crates/interledger-stream/src/congestion.rs:70-101 | slow start doubles and avoidance adds, up to the u64 maximum, and the window never shrinks |
| `Congestion.SlowStartDoubles` | crates/interledger-stream/src/congestion.rs:70-101 | in slow start n fulfilled packets multiply the window by 2^n, up to the u64 maximum |
| `Congestion.AvoidanceAdds` | crates/interledger-stream/src/congestion.rs:70-101 | in congestion avoidance n fulfilled packets add n times the increase, up to the u64 maximum |
| `Congestion.CongestionEndsSlowStart` | crates/interledger-stream/src/congestion.rs:104-115 | a T04 halves the window and ends slow start for good |
| `Congestion.CongestionController.Reject` | crates/interledger-stream/src/congestion.rs:104-138 | the new state for each code, with the window halved in f64, or a panic exactly on a report of zero units received; neither window nor cap grows, and an open window is never closed |
| `Congestion.CongestionController.LearnMaxPacket` | crates/interledger-stream/src/congestion.rs:116-134 | the packet cap becomes the proportional one or the one halved in f64, and never grows; a division by zero panics |
| `StreamPayments.PacketIsUseful` | crates/interledger-stream/src/client.rs:142-175 | under the loop's guard, for every amount, with the dust limit in f64: the divisor is positive, the packet is within both caps, and it is positive if and only if the cap is and the dust spreading does not overflow |
| `StreamPayments.DustIsSpread` | crates/interledger-stream/src/client.rs:142-175 | if what would be left for a last packet is below the dust limit, the packet is the least of which so many cover everything, and below twice the window, or it is the path's cap |
| `StreamPayments.PacketWithoutDust` | crates/interledger-stream/src/client.rs:142-175 | if the rest reaches the dust limit or only one packet is to come, the packet is the least of window or minimum, cap and what is available; it is 0 if the spreading overflows |
| `StreamPayments.MinimumOutweighsRounding` | crates/interledger-stream/src/client.rs:128-140 | the minimum is the least u64 amount that delivers a thousand units, or 0 if there is none |
| `StreamPayments.DustLimitExactly` | crates/interledger-stream/src/client.rs:160-161 | below 2^49 the dust limit is the exact ceiling of 1.2 times the minimum |
| `StreamPayments.FirstPacketIsWhole` | crates/interledger-stream/src/client.rs:70-100 | the first packet of a payment is all of it, at any rate |
| `StreamPayments.RecoversInTenths` | crates/interledger-stream/src/client.rs:70-100 | after a T04 each fulfilled packet opens the window by a tenth of the payment |
| `StreamPayments.Converted` | crates/interledger-stream/src/client.rs:711-720 | the minimum to be delivered is the amount at the rate, rounded up, or 0 if that is no u64 |
| `StreamPayments.PacketOutweighsRounding` | crates/interledger-stream/src/client.rs:142-175 | at a known rate a packet delivers at least a thousand units, unless it is all that is left, the path's cap, or empty by overflow |
| `Floats.RoundedIsRepresentable` | crates/interledger-stream/src/congestion.rs:110-113 | converting an integer to f64 gives an integer that an f64 can hold |
| `Floats.RoundedIsNearest` | crates/interledger-stream/src/congestion.rs:110-113 | no integer that an f64 can hold is nearer |
| `Floats.TieIsEven` | crates/interledger-stream/src/congestion.rs:110-113 | of two that are as near, the one with the even last digit is taken |
| `Floats.RepresentableMeaning` | crates/interledger-stream/src/congestion.rs:110-113 | an integer is an f64 exactly if it has at most 53 bits before its trailing zeros |
| `Floats.Above99PercentExactly` | crates/interledger-stream/src/client.rs:281-287 | for fewer than 2^47 packets the f64 comparison with 0.99 is the exact one |
| `StreamPayments.SpreadBounds` | crates/interledger-stream/src/client.rs:157-167 | dust spreading turns s into s' with s <= s' < 2s and n packets of s' cover the rest, if and only if the unchecked addition fits a u64 |
| `StreamPayments.NoOverflowBelowHalf` | crates/interledger-stream/src/client.rs:157-167 | for payments of up to 2^63 the spreading never overflows |
| `StreamRuns.LargePaymentStalls` | crates/interledger-stream/src/client.rs:157-167 | a payment of 2^64 - 2048 whose first twelve packets got a T04 may go on, without a cap, but its next packet at a rate of one half is 0 |
| `StreamPayments.LearnedBelowPacket` | crates/interledger-stream/src/congestion.rs:116-127 | after a report that a packet was too large, the learned cap is below that packet, even if the product wraps around |
| `StreamPayments.LearnedInProportion` | crates/interledger-stream/src/congestion.rs:116-127 | the learned cap is the packet in proportion of what may arrive to what did, rounded down, or the old cap if that is less |
| `StreamPayments.LearnedHalves` | crates/interledger-stream/src/congestion.rs:128-133 | without details a known cap is halved and an unknown one stays unknown |
| `StreamPayments.StreamPayment.ApplyPrepare` | crates/interledger-stream/src/client.rs:110-185 | the packet amount, its minimum and the new counters |
| `StreamPayments.StreamPayment.ApplyFulfill` | crates/interledger-stream/src/client.rs:189-200 | the new counters; the fulfilled amount grows by exactly the packet |
| `StreamPayments.StreamPayment.ApplyReject` | crates/interledger-stream/src/client.rs:204-223 | the new counters, or those before a panic of the controller; the fulfilled amount is unchanged |
| `StreamRuns.Conservation` | crates/interledger-stream/src/client.rs:242-278 | in every run both in-flight counters are the sum of the packets under way, fulfilled and in flight make up what was sent, and complete means exactly the source amount with nothing in flight |
| `StreamRuns.NoUnderflow` | crates/interledger-stream/src/client.rs:189-223 | in every run, for every packet under way: no counter is reduced by more than it holds |
| `StreamRuns.NoOverflow` | crates/interledger-stream/src/client.rs:177-185 | in every run, whenever another packet may be sent, no counter is raised past the source amount |
| `StreamRuns.DeliveredMinimums` | crates/interledger-stream/src/client.rs:575-583 | at least the sum of the minimums of the fulfilled packets is delivered |
| `StreamRuns.DeliveredExactly` | crates/interledger-stream/src/client.rs:575-583 | in every run the delivered amount is the sum over the fulfilled packets of the claim or the minimum, whichever is more, up to the u64 maximum |
| `StreamRuns.CountersMatch` | crates/interledger-stream/src/client.rs:189-223 | in every run the counters are the numbers of fulfills, of rejects, and of rejects with T00, T01 or F99 |
| `StreamRuns.MaySendIff` | crates/interledger-stream/src/client.rs:258-287 | in every run of fewer than 2^47 steps the sender goes on exactly while not more than 99% of at least 200 answers were such rejects, what is under way leaves room in the window, and something is left to send |
| `StreamRuns.RateGuarantee` | crates/interledger-stream/src/client.rs:177-200 | a complete payment whose packets were prepared at rate r or better delivers at least ceil(r * source) |
| `Oer.PredictIsMinimal` | crates/interledger-packet/src/oer.rs:35-46 | the predicted size is the least number of bytes that holds the value |
| `Oer.LengthRoundTrip` | crates/interledger-packet/src/oer.rs:121-157 | every length is read back, with exactly the following bytes left |
| `Oer.OctetsRoundTrip` | crates/interledger-packet/src/oer.rs:92-101 | every octet string is read back, with exactly the following bytes left |
| `Oer.VarUintRoundTrip` | crates/interledger-packet/src/oer.rs:160-176 | every u64 is read back, with exactly the following bytes left |
| `Oer.StrictLength` | crates/interledger-packet/src/oer.rs:121-157 | in strict mode an accepted length is spelled as it would be written |
| `Oer.StrictOctets` | crates/interledger-packet/src/oer.rs:92-101 | in strict mode an accepted octet string is spelled as it would be written |
| `Oer.StrictVarUint` | crates/interledger-packet/src/oer.rs:160-176 | in strict mode an accepted varuint is spelled as it would be written |
| `Oer.LenientIsNotCanonical` | crates/interledger-packet/src/oer.rs:248-256 | outside strict mode two different byte strings read as the same value |
| `Oer.CanonicalIffStrict` | crates/interledger-packet/src/oer.rs:121-157 | a length accepted outside strict mode is spelled as it would be written, if and only if strict mode accepts it |
| `Formats.LengthFormat` | crates/interledger-packet/src/oer.rs:266-275 | a length is one byte below 128, and otherwise a count of bytes with the first bit set and the number in big-endian order without leading zeros |
| `Formats.VarUintFormat` | crates/interledger-packet/src/oer.rs:279-283 | a number is written as its size in one byte and its bytes in big-endian order without leading zeros |
| `Formats.LengthAccepted` | crates/interledger-packet/src/oer.rs:121-157 | exactly which first bytes make an acceptable length, in strict mode and outside it |
| `Formats.VarUintAccepted` | crates/interledger-packet/src/oer.rs:160-176 | exactly which bytes make an acceptable number, in strict mode and outside it |
| `Oer.OerIsLawful` | crates/interledger-packet/src/oer.rs:258-286 | the primitives read back what they write, in both modes |
| `Oer.OerIsLocal` | crates/interledger-packet/src/oer.rs:79-157 | an octet string is its length and its bytes, and other bytes of that length after the same prefix read in the same way |
| `Oer.StrictOerIsCanonical` | crates/interledger-packet/src/oer.rs:248-256 | in strict mode only what the writers write is accepted |
| `Oer.ReadCounted` | crates/interledger-btp/src/packet.rs:117-142 | the counted loop reads the elements in order and stops at the first error |
| `Oer.PutAll` | crates/interledger-btp/src/packet.rs:150-157 | the writing loop appends the elements in order |
| `Oer.ListRoundTrip` | crates/interledger-ccp/src/packet.rs:209-214 | a list is read back whole if its elements are, with exactly the following bytes left |
| `Oer.ListCanonical` | crates/interledger-btp/src/packet.rs:117-142 | a list is canonical if its elements are |
| `Texts.AddressLength` | crates/interledger-packet/src/address.rs:48-76 | an address has at least 3 bytes |
| `TextFormats.AddressMeaning` | crates/interledger-packet/src/address.rs:28-76 | a valid address is what the address pattern, run as an automaton, accepts, up to 1023 bytes |
| `TextFormats.AddressIsUtf8` | crates/interledger-packet/src/address.rs:27-34 | a valid address is UTF-8, so it may be used as a string unchecked |
| `TextFormats.Utf8Meaning` | crates/interledger-btp/src/packet.rs:119 | the accepted strings are exactly the encodings of Unicode scalar values |
| `TextFormats.TimestampMeaning` | crates/interledger-packet/src/oer.rs:178-206 | a timestamp is fourteen digits, up to three more behind a point, and a Z, that the calendar knows |
| `Btp.FromBytes` | crates/interledger-btp/src/packet.rs:52-76 | the parser returns the decoded packet or the error of its first failing field |
| `Btp.ToBytes` | crates/interledger-btp/src/packet.rs:311-325 | the writer returns the encoded packet |
| `Btp.ReadProtocolData` | crates/interledger-btp/src/packet.rs:113-148 | the counted list of protocol data, or an error also on trailing bytes |
| `Btp.PacketRoundTrip` | crates/interledger-btp/src/packet.rs:175-325 | every representable packet decodes from its encoding |
| `Btp.RoundTripExactly` | crates/interledger-btp/src/packet.rs:175-325 | a packet survives encoding and decoding if and only if an error code has three bytes, a time has the length it is written in and no rest below a millisecond, and no known content type is spelled as unknown |
| `Btp.OnlyRestIsLost` | crates/interledger-btp/src/packet.rs:255-325 | an error packet with a finer time decodes to itself without the rest below a millisecond |
| `Btp.StrictIsCanonical` | crates/interledger-btp/src/packet.rs:175-325 | in strict mode every accepted byte string re-encodes to itself |
| `Btp.CanonicalIffStrict` | crates/interledger-btp/src/packet.rs:175-325 | a packet accepted outside strict mode re-encodes to itself, if and only if strict mode accepts it |
| `PacketFormats.BtpFormat` | crates/interledger-btp/src/packet.rs:22-325 | every representable packet is written in the format: type byte 6, 1 or 2, a big-endian request id, the length, for errors code, name, time and data in that order, and the counted protocol data with content type 0 for octets and 1 for text |
| `PacketFormats.BtpReadsFormat` | crates/interledger-btp/src/packet.rs:52-76 | in strict mode whatever is accepted is in that format, for the packet that it is read as |
| `PacketFormats.BtpKinds` | crates/interledger-btp/src/packet.rs:33-76 | in both modes a packet is a message, response or error exactly if its first byte is 6, 1 or 2, its request id is the next four bytes, and any other first byte is refused |
| `CcpCodec.PropRoundTrip` | crates/interledger-ccp/src/packet.rs:260-318 | a route property is read back, with exactly the following bytes left |
| `CcpCodec.RouteRoundTrip` | crates/interledger-ccp/src/packet.rs:340-404 | a route is read back, with exactly the following bytes left |
| `CcpCodec.ControlRoundTrip` | crates/interledger-ccp/src/packet.rs:191-231 | a control request is read back, whatever follows it |
| `CcpCodec.UpdateRoundTrip` | crates/interledger-ccp/src/packet.rs:473-538 | an update request is read back, whatever follows it |
| `CcpCodec.ControlIdempotent` | crates/interledger-ccp/src/packet.rs:191-231 | printing a parsed control request and parsing it again changes nothing |
| `CcpCodec.UpdateIdempotent` | crates/interledger-ccp/src/packet.rs:473-538 | printing a parsed update request and parsing it again changes nothing, though spare flag bits and trailing bytes are dropped |
| `PacketFormats.ControlFormat` | crates/interledger-ccp/src/packet.rs:222-231 | a control request is written as mode 0 for idle or 1 for sync, table id, big-endian epoch and counted features |
| `PacketFormats.UpdateFormat` | crates/interledger-ccp/src/packet.rs:523-548 | an update request is written as table id, current, first and last epoch and hold-down time in big-endian order, speaker, counted routes with prefix, path, auth and flagged properties, and counted withdrawn prefixes |
| `CcpCodec.ControlFromData` | crates/interledger-ccp/src/packet.rs:191-219 | the parser returns the decoded request or the error of its first failing field |
| `CcpCodec.RouteFrom` | crates/interledger-ccp/src/packet.rs:344-385 | the parser with its two loops returns the decoded route and the rest |
| `CcpCodec.UpdateFromData` | crates/interledger-ccp/src/packet.rs:473-520 | the parser with its two loops returns the decoded request |
| `CcpCodec.UpdateToData` | crates/interledger-ccp/src/packet.rs:523-548 | the writer with its two loops returns the encoded request |
| `IlpPackets.EnvelopeIsView` | crates/interledger-packet/src/packet.rs:587-613 | the content lies in the buffer at the returned offset, and replacing it by other bytes of that length keeps the envelope |
| `IlpPackets.EnvelopeRoundTrip` | crates/interledger-packet/src/packet.rs:587-613 | a framed content is found again at its offset, and the frame takes the predicted size |
| `IlpPackets.PrepareRoundTrip` | crates/interledger-packet/src/packet.rs:289-325 | for an expiry of any length: a built Prepare is consistent with its buffer, takes the predicted size and parses, if and only if the expiry takes 17 bytes, and parses to itself if and only if it also is a whole number of milliseconds |
| `IlpPackets.PrepareAccessors` | crates/interledger-packet/src/packet.rs:239-255 | condition and data of a built Prepare are the builder's |
| `IlpPackets.BuildPrepare` | crates/interledger-packet/src/packet.rs:290-324 | appending field after field gives the built packet, with offsets taken from predicted sizes |
| `IlpPackets.DataIsView` | crates/interledger-packet/src/packet.rs:251-255 | the data of a consistent Prepare is read from its buffer, behind the fields that can be overwritten |
| `IlpPackets.EditKeepsConsistent` | crates/interledger-packet/src/packet.rs:214-236 | one overwrite of amount or expiry keeps struct and buffer in agreement, and condition and data as they were |
| `IlpPackets.EditsKeepConsistent` | crates/interledger-packet/src/packet.rs:214-236 | any sequence of overwrites keeps the buffer parseable, with the amount and the expiry that were set last and nothing else changed |
| `IlpPackets.EditConsistentIff` | crates/interledger-packet/src/packet.rs:214-236 | an overwrite keeps struct and buffer in agreement, if and only if it sets the amount or an expiry of 17 bytes |
| `IlpPackets.StrictPrepareIsCanonical` | crates/interledger-packet/src/packet.rs:127-204 | in strict mode a parsed Prepare is what its own fields build |
| `PacketFormats.PrepareFormat` | crates/interledger-packet/src/packet.rs:289-325 | a built Prepare is type 12, the length, 8 bytes of big-endian amount, 17 of expiry, 32 of condition, destination and data |
| `IlpPackets.TrailingIgnored` | crates/interledger-packet/src/packet.rs:127-204 | outside strict mode bytes behind the data of a Prepare are ignored |
| `IlpPackets.PreparePacket.SetAmount` | crates/interledger-packet/src/packet.rs:214-218 | the amount and its 8 bytes in the buffer, nothing else |
| `IlpPackets.PreparePacket.SetExpiresAt` | crates/interledger-packet/src/packet.rs:226-236 | the expiry and as many of its bytes as fit in 17 in the buffer, nothing else, and a panic exactly when there are more |
| `IlpPackets.PreparePacket.constructor` | crates/interledger-packet/src/packet.rs:195-203 | a packet object with its own buffer |
| `IlpReplies.FulfillRoundTrip` | crates/interledger-packet/src/packet.rs:405-422 | a built Fulfill parses to itself, takes the predicted size, and shows the builder's fields |
| `IlpReplies.FulfillIsView` | crates/interledger-packet/src/packet.rs:357-373 | fulfillment and data of a parsed Fulfill are views into its content |
| `IlpReplies.StrictFulfillIsCanonical` | crates/interledger-packet/src/packet.rs:339-355 | in strict mode a parsed Fulfill is what its own views build |
| `IlpReplies.RejectRoundTrip` | crates/interledger-packet/src/packet.rs:541-571 | a built Reject takes the predicted size, and its buffer parses, to the same offsets, if and only if an address is given |
| `IlpReplies.RejectAccessors` | crates/interledger-packet/src/packet.rs:487-506 | address, message and data of a built Reject are the builder's, also without an address |
| `IlpReplies.RejectIsView` | crates/interledger-packet/src/packet.rs:487-506 | address, message and data of a parsed Reject are views into its content |
| `IlpReplies.StrictRejectIsCanonical` | crates/interledger-packet/src/packet.rs:441-506 | in strict mode a parsed Reject, offsets included, is what its own accessors build |
| `PacketFormats.FulfillFormat` | crates/interledger-packet/src/packet.rs:405-422 | a built Fulfill is type 13, the length, 32 bytes of fulfillment and data |
| `PacketFormats.RejectFormat` | crates/interledger-packet/src/packet.rs:541-571 | a built Reject is type 14, the length, the code, the address or an empty one, message and data |
| `IlpReplies.CodeIsAscii` | crates/interledger-packet/src/error.rs:16-25 | a reject whose code is not 7-bit ASCII is refused |
| `IlpReplies.FulfillDataTrailing` | crates/interledger-packet/src/packet.rs:339-355 | outside strict mode bytes behind the data of a Fulfill are accepted |
| `IlpReplies.RejectTrailingIgnored` | crates/interledger-packet/src/packet.rs:441-478 | outside strict mode bytes behind the data of a Reject are ignored |
| `IlpOverOer.BuiltAndEdited` | crates/interledger-packet/src/packet.rs:207-325 | over the real encoding: a built Prepare, edited in place any number of times, parses to its own struct, with the amount and expiry set last and the builder's destination, condition, data and offsets |
| `IlpOverOer.PrepareExactly` | crates/interledger-packet/src/packet.rs:289-325 | over the real encoding: a built Prepare parses if and only if the expiry takes 17 bytes, and to itself if and only if it also is a whole number of milliseconds |
| `IlpOverOer.FulfillExactly` | crates/interledger-packet/src/packet.rs:405-422 | over the real encoding: a built Fulfill parses to itself |
| `IlpOverOer.RejectExactly` | crates/interledger-packet/src/packet.rs:541-571 | over the real encoding: a built Reject parses to itself if and only if an address is given |
| `IlpOverOer.StrictPrepare` | crates/interledger-packet/src/packet.rs:127-255 | over the real encoding in strict mode: a parsed Prepare is what its own accessors build |
| `IlpOverOer.StrictFulfill` | crates/interledger-packet/src/packet.rs:339-373 | over the real encoding in strict mode: a parsed Fulfill is what its own accessors build |
| `IlpOverOer.StrictReject` | crates/interledger-packet/src/packet.rs:441-506 | over the real encoding in strict mode: a parsed Reject is what its own accessors build |
| `Balances.Prepared` | crates/interledger-store/src/redis/lua/process_prepare.lua:9-29 | refused exactly below the minimum; the net balance falls by the amount, prepaid funds first |
| `Balances.Fulfilled` | crates/interledger-store/src/redis/lua/process_fulfill.lua:5-23 | the net balance rises by what is not settled; a settlement is due exactly at the threshold and leaves `settle_to` |
| `Balances.Settled` | crates/interledger-store/src/redis/lua/process_settle.lua:7-16 | everything above `settle_to` leaves the balance, exactly when settlement is enabled |
| `Balances.Credited` | crates/interledger-store/src/redis/lua/process_incoming_settlement.lua:18-28 | an incoming settlement pays the debt first, and the rest in advance |
| `Balances.RejectMovesPrepaid` | crates/interledger-store/src/redis/lua/process_reject.lua:1-7 | a rejected packet leaves the sum as it was, but what it took from the prepaid amount comes back to the balance |
| `Balances.MinimumKept` | crates/interledger-store/src/redis/lua/process_fulfill.lua:13-21 | all steps keep an account at its minimum or above, if and only if `settle_to` is not below it |
| `Balances.AccountRecord.ProcessPrepare` | crates/interledger-store/src/redis/lua/process_prepare.lua:1-29 | the record and the returned balance, or a refusal that changes nothing |
| `Balances.AccountRecord.ProcessFulfill` | crates/interledger-store/src/redis/lua/process_fulfill.lua:1-23 | the record, the returned balance and the amount to settle |
| `Balances.AccountRecord.ProcessSettle` | crates/interledger-store/src/redis/lua/process_settle.lua:5-16 | the record, the returned balance and the amount to settle |
| `Balances.AccountRecord.Return` | crates/interledger-store/src/redis/lua/process_reject.lua:1-7 | the amount is back in the balance |
| `Balances.AccountRecord.ProcessIncomingSettlement` | crates/interledger-store/src/redis/lua/process_incoming_settlement.lua:16-28 | the record and the returned balance |
| `BalanceRuns.BooksKept` | crates/interledger-service-util/src/balance_service.rs:113-207 | from any state and over any run, each account's balance corrected by all packets, settlements and receipts is unchanged |
| `BalanceRuns.Conservation` | crates/interledger-service-util/src/balance_service.rs:113-351 | the balance is the initial one, less pending and fulfilled incoming amounts, with outgoing amounts fulfilled to it, less settlements sent, awaited and withheld; rejected packets and refused settlements do not show |
| `BalanceHistories.BalanceTold` | crates/interledger-service-util/src/balance_service.rs:113-351 | over every run, told from the steps: the balance is the initial one, less the incoming amounts of admitted packets except where a reject was applied, with the outgoing amounts of packets answered by a fulfill and applied, less settlements except those refused and refunded, with the settlements that came in under a new key |
| `BalanceHistories.PhasesTold` | crates/interledger-service-util/src/balance_service.rs:158-207 | a packet is done or due exactly as its first answer, a fulfill or a reject, and the updates after it demand |
| `BalanceHistories.OutcomesTold` | crates/interledger-service-util/src/balance_service.rs:290-351 | a settlement is withheld exactly without an engine, accepted exactly if the engine's first answer was ok, and refunded or due for it exactly if the engine refused |
| `BalanceHistories.PacketsAdmitted` | crates/interledger-service-util/src/balance_service.rs:113-156 | exactly the packets between known accounts that carry something and leave the sender its minimum are accounted for, in order |
| `BalanceHistories.ReceiptsTold` | crates/interledger-store/src/redis/lua/process_incoming_settlement.lua:8-28 | exactly the settlements for a known account under an unknown key are credited |
| `BalanceHistories.FulfillSettles` | crates/interledger-store/src/redis/lua/process_fulfill.lua:5-23 | applying a fulfill leaves the receiver below its threshold, and settles what is above `settle_to` exactly when the threshold is reached |
| `BalanceHistories.DelaySettles` | crates/interledger-store/src/redis/lua/process_settle.lua:7-16 | a settlement after a delay brings the balance down to `settle_to` exactly when it is above |
| `BalanceRuns.FulfillKeeps` | crates/interledger-service-util/src/balance_service.rs:238-288 | applying a fulfill, with the settlement it may trigger, keeps the books of every account |
| `BalanceRuns.RefundKeeps` | crates/interledger-service-util/src/balance_service.rs:318-336 | a refund keeps the books of every account |
| `BalanceRuns.CreditedOnce` | crates/interledger-store/src/redis/lua/process_incoming_settlement.lua:8-14 | over every run a key is credited at most once, and once more for each time that it has expired |
| `BalanceRuns.MinimumKeptInRuns` | crates/interledger-store/src/redis/lua/process_prepare.lua:9-15 | no run takes an account whose `settle_to` is not below its minimum under that minimum, whatever the other accounts do |
| `TimerQueue.RunKeepsOneToOne` | crates/interledger-service-util/src/balance_service.rs:534-568 | over any events the index and the delay queue stay one to one |
| `TimerQueue.OneTimeoutEach` | crates/interledger-service-util/src/balance_service.rs:534-568 | in every reachable state an account has at most one timeout, an expired id is in the index, and a key to be removed is in the queue |
| `TimerQueue.DeadlineStep` | crates/interledger-service-util/src/balance_service.rs:537-568 | each event's effect on an account's deadline: set once, gone when cleared or expired, else unchanged |
| `TimerQueue.FirstDeadlineStays` | crates/interledger-service-util/src/balance_service.rs:550-561 | setting an account again never postpones its first deadline |
| `TimerQueue.SettlementTimers.HandleSet` | crates/interledger-service-util/src/balance_service.rs:550-561 | a new entry exactly when there was none |
| `TimerQueue.SettlementTimers.HandleClear` | crates/interledger-service-util/src/balance_service.rs:539-549 | the entry is gone from index and queue |
| `TimerQueue.SettlementTimers.HandleExpired` | crates/interledger-service-util/src/balance_service.rs:564-568 | the expired id was in the index and is gone |
| `TimerQueue.SettlementTimers.HandleAll` | crates/interledger-service-util/src/balance_service.rs:534-568 | the loop's state and the accounts due, over any sequence of events |

## Left out

- The Redis store beyond the balance scripts, HTTP APIs, SPSP, ILP-over-HTTP, WebSockets, the CLI and node wiring: I/O and plumbing.
- Cryptography: the auth hash is a parameter, and a packet with a random condition is taken never to be fulfilled.
- The BTP connection service and the shutdown of the settlement loop: they depend on random ids, timing and stream termination.
- Echo, rate-limit, max-packet, expiry and validator services, and ILDCP: short branches that would add only easy members.
- `calculate_outgoing_amount`, `get_rate` and the exchange-rate providers: a rate is a given real.
- STREAM frames and encryption: the claimed amount of a fulfill is given. The sending loop's timers are not modelled; its guard is.
- CCP message envelopes (peer address, condition, expiry of the Prepare that carries a request) and the checks of who may send routes.
- Calendar arithmetic: whether digits are a date, and their normal form, is a parameter.
- A node whose own address changes while it runs, and a speaker that restarts under a new table id: `ReplicaRuns` follows one table id. The code keeps the old routes when the id changes, and so does `RoutingTables.AfterUpdate`.
- Epochs are unbounded; the source counts them in a u32.
- `update_best_routes` without prefixes checks the configured and local ones; here the prefixes are always given.
- Lua numbers and Redis integers are unbounded here; the scripts lose precision above 2^53.
- Rejected or failed store updates of the balance service are logged and dropped by the source; runs contain only updates that succeed.
- IlpPackets.BuildPrepare: the buffer is a growing sequence, so capacity and reallocation are not modelled.
- StreamRuns.Conservation: over runs whose F08 reports have a positive received amount; on any other the controller panics, which `Congestion.CongestionController.Reject` models.

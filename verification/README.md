# Verified model of a proxy controller

This project models the decision-making and concurrent parts of a desktop proxy
manager in Dafny and proves what they promise: the egress watchdog and its node
selection, the privileged routing daemon, the egress scatter pool and its sampler,
the node catalog from database rows to the list on screen, the transactional core
configuration swap, and the Netlink reply walker.

`dafny verify dfyconfig.toml` checks everything.

## Layout

| files | what they model |
|---|---|
| `Netd`, `NetdRequests`, `NetdDeadman`, `NetdInterleaving`, `NetdWindows`, `NetdOwner` | the routing daemon: its lock sections, what each request achieves, serial timed runs, all interleavings of sessions, watchdog and backend calls, when the kernel holds what the daemon remembers, and when routing is left without an owner |
| `Watchdog`, `WatchdogEvidence`, `WatchdogDuties`, `WatchdogMachine` | one watchdog cycle as a function of what it observes, what its outcome rests on, what it does in each situation, and the same cycle on mutable state |
| `WatchdogRuns`, `WatchdogHistory`, `WatchdogSession` | runs of cycles and manual switches: pacing, the failure counter, the history behind every track, and the run carried out on a real tunnel |
| `WatchdogShared`, `WatchdogFlag`, `WatchdogCore`, `WatchdogWitness` | the controller and its core as their threads share them, read by read and write by write, and the inputs on which promises break |
| `Shortlist`, `Median`, `Selection`, `SelectionCharges`, `SwitchMargin` | the two-tier shortlist, robust median, per-node history and composite cost, what the cost charges for, and the switch margin |
| `Sampler`, `ScatterReport`, `ScatterPool` | the 64-bit generator, the in-place partial shuffle, the report, and the worker pool on a shared counter and a channel |
| `Supervisor`, `Session` | the configuration swap around the core process, and the controller's switch, stop and degrade on top of it |
| `Repository`, `DenseStore`, `Hydration`, `Snapshot`, `SnapshotRace`, `Query`, `CatalogView`, `Projection`, `VirtualModel` | subscription sync, structure-of-arrays store, reading the tables into it, published layers and the threads that share them, queries, the catalog end to end, and the background projection |
| `Netlink` | message and attribute walks over received bytes |
| `Sorting`, `Sequences`, `Wrappers` | the stable sort every ranking relies on, facts about sequences, option and result types |

State the program updates in place is a class whose methods are proved against a
function on values (`Daemon`, `EgressWatchdog`, `AutoSelector`, `CoreSupervisor`,
`ProxyController`, `NodeRepository`, `StoreSnapshot`, `VirtualNodeModel`); the
theorems are about those functions and about runs of them. Values the program never
writes again once published (stores, arenas, projections) are plain datatypes.

Everything outside the program is a parameter: probe results, clocks, backend and
signal success, the validator, the decay factor (a non-increasing function into
(0, 1]), lower-casing, and the database's choice of a fresh id. Floating point is
modelled by reals, so a configuration's latency scale, which divides, is non-zero by its
type. What a cycle observes is ordered in time and has at most one sweep row per catalog
entry, by its type as well.

## What does not hold of the program

Each of these is stated in the model as the program behaves, with the exact condition.

- A commit that overtakes the window of an older backend call can leave rules in the
  kernel that the daemon has forgotten and its watchdog will never remove
  (`NetdWindows.OverlappingWindowsDisagree`); at rest the two disagree exactly when the
  overtaken window left other settings (`NetdWindows.DisagreesExactlyWhenOvertaken`).
- Active routing can be left without an owner, so that no heartbeat can keep it alive
  (`NetdDeadman.OwnerlessRoutingHappens`). Under every interleaving that is so exactly
  since an owner gave up the slot under active routing, or an enable was committed into
  an emptied slot, while nobody has claimed it and no rollback has been committed
  (`NetdOwner.OwnerlessExactly`). An owner gives up only when the backend has refused its
  further enable, and a slot is emptied under an enable only by a rollback committed since
  its claim (`NetdOwner.GivingUpFollowsAFailedEnable`,
  `NetdOwner.UnownedCommitFollowsARollback`); both happen (`NetdOwner.OwnerGivesUp`,
  `NetdOwner.RollbackEmptiesTheSlot`).
- A manual switch stamped after a cycle has read the stamp is overridden at once,
  whatever courtesy window is configured (`WatchdogFlag.ManualSwitchOverridden`); nothing
  stamped earlier can be (`WatchdogShared.InterventionsRespectWhatTheyRead`).
- A switch that falls between the two writes of a degrade leaves a degraded controller
  with an active node, and nothing else does (`WatchdogFlag.DegradedWithANodeHappens`,
  `WatchdogFlag.DegradedWithANodeExactly`).
- A switch that falls between a stop of the core and the forgetting of the node that
  belongs to it leaves the core running with no active node, and nothing else does
  (`WatchdogCore.CoreRunsUnnamedHappens`, `WatchdogCore.CoreRunsUnnamedExactly`).
- Escalation can degrade to direct although a finalist passed, in exactly the
  configurations with fewer rescore slots than finalists
  (`WatchdogWitness.TooEarlyIsPossibleExactly`), and on exactly the inputs where the kept
  scores all carry the failed node's name (`WatchdogEvidence.DegradesTooEarlyExactly`).
- A switch margin below twice the measurement noise flaps (`SwitchMargin.MarginIsSharp`).
- A switch the routing daemon refuses leaves the core on the new node's configuration
  while the controller still names the old node, or none
  (`Session.RefusedRoutingSwapsTheCore`, `Session.RefusedRoutingBreaksStep`,
  `Session.OneSwitch`).
- Offsets of the packed subscription ids wrap at 2^32
  (`DenseStore.SourcesReadBackExactlyBelowWrap`); a row with that many reads back as having
  none (`DenseStore.WrappedRowLosesItsSources`).
- A publication of metrics that copies the arena before a replacement puts its own in
  place, and puts its copy back afterwards, leaves an arena of the old store over the new
  one, and nothing else does (`SnapshotRace.MisalignedExactlyWhenStraddled`). A reading
  verified for one node is then shown for another (`SnapshotRace.AnothersReadingIsShown`).
- A metrics batch rebuilds the hot arena from the store, so readings published before
  it are dropped (`Snapshot.LiveIsTheLastWord`).
- Sorting by descending latency lists untested nodes first (`Query.UntestedRowsComeTogether`).
- A reply attribute of length zero makes the attribute loop spin for ever
  (`Netlink.ZeroLengthAttributeHangs`, `Netlink.StallsExactlyAtZeroLength`,
  `Netlink.LoopsForeverExactlyOnStall`). The modelled loop returns `Stalls` where the
  program would not return.
- `auto_adopt` documents that the caller degrades when nothing works. It reports
  `Degraded` without calling the degrade hook, so the controller is left as it was, exactly
  when nothing was active, adoption was on, and a catalog that answered had nobody who
  passed (`WatchdogEvidence.DegradedInNameOnlyExactly`,
  `WatchdogWitness.DegradedInNameOnlyHappens`).

## Model

| member | source | states |
|---|---|---|
| `NetdInterleaving.OwnershipNeverSticks` | crates/netd/src/main.rs:112-278 | over every interleaving of sessions, watchdog and disconnects at lock-section granularity, routing is active exactly when settings are remembered, and an owner has active routing or an enable in flight |
| `NetdWindows.DisagreesExactlyWhenOvertaken` | crates/netd/src/main.rs:211-257 | over every interleaving, at rest kernel and daemon disagree exactly when the commit of the last effective backend call overtook a still open window of an older call, and that window committed last of all with other settings |
| `NetdWindows.InOrderCommitsAgree` | crates/netd/src/main.rs:211-257 | if no commit closes a window while the window of an older call is open, the kernel holds what the daemon remembers whenever nothing is pending |
| `NetdWindows.ExclusiveWindowsAgree` | crates/netd/src/main.rs:211-257 | in particular while no two tasks are between a backend call and its commit |
| `NetdWindows.OverlappingWindowsDisagree` | crates/netd/src/main.rs:229-257 | a run, ending with every task idle, after which the kernel holds rules the daemon forgot and the watchdog can never expire |
| `NetdDeadman.SerialRunsAgree` | crates/netd/src/main.rs:171-278 | with requests served one at a time, installed settings always equal the remembered ones and only active routing is owned |
| `NetdDeadman.OwnerLostExactlyOnFailedReenable` | crates/netd/src/main.rs:210-222 | with requests served one at a time, active routing loses its owner in one case only, the owner's own re-enable refused by the backend; `NetdOwner` has overlapping requests |
| `NetdDeadman.OwnerlessRoutingHappens` | crates/netd/src/main.rs:210-222 | two requests from boot reach active routing without an owner |
| `NetdOwner.OwnerlessExactly` | crates/netd/src/main.rs:132-278 | under every interleaving, at every moment, routing is active without an owner exactly when its owner gave up the slot under it or an enable was committed into an emptied slot, with no claim and no committed rollback since |
| `NetdOwner.GivingUpFollowsAFailedEnable` | crates/netd/src/main.rs:210-221 | an owner gives up active routing only because the backend has just refused its own further enable |
| `NetdOwner.UnownedCommitFollowsARollback` | crates/netd/src/main.rs:210-257 | an enable is committed into an emptied slot only after a rollback was committed between its claim and its commit |
| `NetdOwner.OwnerGivesUp` | crates/netd/src/main.rs:210-221 | a run that loses the owner the first way |
| `NetdOwner.RollbackEmptiesTheSlot` | crates/netd/src/main.rs:210-257 | a run that loses it the second way, with no backend call failing and kernel and daemon in agreement |
| `NetdDeadman.DeadlineMovesExactlyOnRefresh` | crates/netd/src/main.rs:212-241 | the heartbeat instant moves exactly on an acceptable claim, at its start, or on a completed enable or the owner's heartbeat while routing, at its end |
| `NetdDeadman.DeadmanSwitch` | crates/netd/src/main.rs:112-130 | in every timed run whose events take time, routing a look leaves alive had a heartbeat within 5 s, and at any moment within 5 s plus the 1 s tick plus the longest event a look may have waited for |
| `NetdDeadman.SilenceEndsRouting` | crates/netd/src/main.rs:112-130 | once nothing refreshes the deadline, routing is off after timeout, one tick and the longest event, whatever else is sent |
| `NetdInterleaving.SilenceEndsRoutingAnyway` | crates/netd/src/main.rs:112-257 | under every interleaving, once nothing refreshes the deadline a look past it finds routing off or goes to roll it back, and after any rollback commits routing stays off |
| `NetdInterleaving.LooksSpareTheFresh` | crates/netd/src/main.rs:112-130 | a look changes nothing unless it finds active routing whose heartbeat is older than the timeout, and then goes to roll back |
| `NetdInterleaving.RoutingEndsForAReason` | crates/netd/src/main.rs:112-257 | under every interleaving active routing ends only in the commit of a rollback, which its task went to, and has been at since, because of a late look, a request, or the owner of active routing closing |
| `NetdRequests.AnswersAreTrue` | crates/netd/src/main.rs:186-257 | enabled is answered only when the session owns active routing with exactly its settings installed and remembered, disabled only when nothing is installed, remembered, active or owned, an acknowledgement carries the request's sequence, and a refusal leaves the routing as it was |
| `NetdRequests.RefusalsAreExact` | crates/netd/src/main.rs:186-287 | each refusal is given exactly on its own condition |
| `NetdRequests.RefusalsKeepTheOwner` | crates/netd/src/main.rs:210-241 | a refusal changes nothing at all, except that an enable the backend refuses ends without an owner |
| `NetdRequests.ClosingClearsExactlyTheOwners` | crates/netd/src/main.rs:171-184 | a clean close by the owner of active routing leaves nothing installed when the backend works, and no other close touches the routing |
| `NetdRequests.LooksSpareTheFresh` | crates/netd/src/main.rs:112-130 | a look up to the timeout after the heartbeat changes nothing, a later one clears active routing when the backend works |
| `NetdRequests.HeldExactlyWhileUninterrupted` | crates/netd/src/main.rs:112-257 | through any serial run a session keeps its routing, in the kernel too, exactly while nobody disables it, none of its own enables fails, it does not close, and no look comes more than the timeout after it was last heard of |
| `NetdRequests.AttendedRoutingStays` | crates/netd/src/main.rs:112-257 | in every timed serial run routing whose owner beats within the timeout of every look, and that nobody disturbs, is there at every moment |
| `Netd.Daemon.ProcessRequest` | crates/netd/src/main.rs:186-244 | the handler on mutable state yields exactly the served state, installed rules and response |
| `Netd.Daemon.RollBack` | crates/netd/src/main.rs:246-257 | disable, then forget settings, activity and owner; a failed disable changes nothing |
| `Netd.Daemon.CloseConnection` | crates/netd/src/main.rs:171-184 | a closing owner of active routing rolls back, any other connection only gives up its claim |
| `Netd.Daemon.WatchdogLooks` | crates/netd/src/main.rs:112-130 | rolls back exactly when routing is active and the heartbeat is more than the timeout old |
| `ScatterPool.FinishedScatterIsComplete` | crates/adapter/src/egress.rs:566-598 | over every interleaving of workers and collector, each target is drawn, checked and reported exactly once, and the counter ends at targets plus workers |
| `ScatterPool.EveryScatterFinishes` | crates/adapter/src/egress.rs:566-598 | every run is bounded in length and can only stop when the collector has everything: no deadlock |
| `ScatterPool.OutcomesExist` | crates/adapter/src/egress.rs:566-598 | every finished run checks each target once, so there is one outcome per target for its report to agree with |
| `ScatterPool.ReportOf` | crates/adapter/src/egress.rs:566-621 | the report of any finished interleaving is the sequential report of the same checks |
| `ScatterReport.Collect` | crates/adapter/src/egress.rs:591-621 | replies in any order fill every slot with its own check, the missing-check panic is unreachable, and counts are those of the sequential run |
| `ScatterReport.VerdictIsTheOperators` | crates/adapter/src/egress.rs:292-298 | whatever noise sites were sampled, the verdict depends on the operators' checks only |
| `ScatterReport.NoiseNeverCounts` | crates/adapter/src/egress.rs:600-620 | the quorum count is the number of verified operators |
| `ScatterReport.ReportsAreTallied` | crates/adapter/src/egress.rs:600-620 | in every report quorum checks are among the verified and those among all |
| `Generator.GeneratorIsBijective` | crates/adapter/src/egress.rs:305-312 | xorshift64* has a two-sided inverse on 64-bit words |
| `Generator.NeverReachesZero` | crates/adapter/src/egress.rs:305-312 | iterating reaches zero exactly from the zero seed |
| `Sampler.ShufflePrefix` | crates/adapter/src/egress.rs:314-328 | the in-place swaps leave the array as the drawn indices say |
| `Sampler.ShuffleIndices` | crates/adapter/src/egress.rs:314-328 | the returned prefix is the sample of the seed |
| `Sampler.SampleIsDistinct` | crates/adapter/src/egress.rs:314-328 | for every seed, length and count: min(count, len) distinct indices in range |
| `Sampler.ApplyDrawsPermutes` | crates/adapter/src/egress.rs:314-328 | swapping keeps a permutation and never revisits placed positions |
| `Sampler.EveryArrangementIsDrawn` | crates/adapter/src/egress.rs:314-328 | every arrangement is reached by some in-range draws |
| `Sampler.DrawsAreDetermined` | crates/adapter/src/egress.rs:314-328 | and by only one, so unbiased draws give unbiased samples |
| `Sampler.EveryDrawHappens` | crates/adapter/src/egress.rs:305-328 | for every round and every remaining place some seed draws that place |
| `Sampler.EverySiteIsPickedFirst` | crates/adapter/src/egress.rs:305-328 | for every site of a non-empty pool some seed samples it first |
| `Sampler.NoSeedSticks` | crates/adapter/src/egress.rs:319-325 | no round of a sample starts from zero, whatever the seed |
| `WatchdogRuns.InterventionsArePaced` | crates/controller/src/proxy_controller.rs:864-946 | in every run with a non-decreasing clock, no switch or degrade from escalation within the cooldown of an automatic switch or the courtesy window of a manual one |
| `WatchdogRuns.CounterCountsFailures` | crates/controller/src/proxy_controller.rs:899-946 | in every run the counter is the number of failed active probes since the last pass or reset |
| `WatchdogRuns.EscalationsAreEarned` | crates/controller/src/proxy_controller.rs:914-965 | a switch or degrade needs the required number of consecutive failures, or a present tunnel grade below the floor |
| `WatchdogRuns.DegradedMeansNoNode` | crates/controller/src/proxy_controller.rs:233-322 | in every run, degraded implies no active node |
| `WatchdogRuns.ReportedDegrades` | crates/controller/src/proxy_controller.rs:864-1142 | in every run a reported degrade leaves no active node, and leaves the flag down exactly in that case |
| `WatchdogShared.InterventionsRespectWhatTheyRead` | crates/controller/src/proxy_controller.rs:864-946 | under every interleaving of the cycle's reads with switches, stops and stamps of other threads, an intervention keeps the cooldown from the watchdog's own switches, and comes within the courtesy window only of a manual stamp made after the cycle read it |
| `WatchdogShared.VerdictsAreCautious` | crates/controller/src/proxy_controller.rs:893-941 | whatever a cycle reads, it intervenes only on stamps that were old enough when read, which is all the claim above needs of it |
| `WatchdogFlag.ManualSwitchOverridden` | crates/controller/src/proxy_controller.rs:893-1045 | for every configuration, a run in which a manual switch made in that gap is undone at the same instant |
| `WatchdogFlag.DegradedWithANodeExactly` | crates/controller/src/proxy_controller.rs:233-322 | under every interleaving, at rest a degraded controller has an active node exactly when a whole switch fell between the two writes of the last degrade and was the last to name a node |
| `WatchdogFlag.DegradedWithANodeHappens` | crates/controller/src/proxy_controller.rs:312-322 | for every configuration, a run that ends so |
| `WatchdogCore.CoreRunsUnnamedExactly` | crates/controller/src/proxy_controller.rs:233-322 | under every interleaving of cycles, switches, stops and degrades, at rest the controller names what the core runs, except exactly when a whole switch fell between a stop of the core and its forgetting of the node; then the core runs and no node is active |
| `WatchdogCore.CoreRunsUnnamedHappens` | crates/controller/src/proxy_controller.rs:296-309 | a run that ends so |
| `WatchdogHistory.TracksAreHistories` | crates/controller/src/proxy_controller.rs:1000-1008 | in every run the track kept of a node is the track of exactly what the run's rounds said about it, in order |
| `WatchdogHistory.CostsStayInRange` | crates/controller/src/proxy_controller.rs:1000-1016 | in every run every contender is charged between zero and the sum of the capped terms |
| `WatchdogSession.WatchdogMirrorsTheTunnel` | crates/controller/src/proxy_controller.rs:233-1142 | in every run carried out on the controller, attempt by attempt, the active node and flag the watchdog goes by are the controller's |
| `WatchdogSession.WatchdogKeepsTheTunnelSound` | crates/controller/src/proxy_controller.rs:233-1142 | in every such run without a refused routing call, a node is active exactly when the core runs its accepted configuration, and degraded implies none |
| `WatchdogEvidence.CyclesAreGrounded` | crates/controller/src/proxy_controller.rs:864-1142 | any node a cycle activates passed this cycle's scatter, and a second probe unless adopted; a switched-to label differs from the failed node's; nothing else touches the controller |
| `WatchdogEvidence.LookupsStayInBounds` | crates/controller/src/proxy_controller.rs:992-1025 | every index through shortlist, filter and rank is inside the catalog |
| `WatchdogEvidence.SwitchedToTheFirstConfirmed` | crates/controller/src/proxy_controller.rs:1017-1038 | no confirmed candidate is ranked cheaper than the one switched to |
| `WatchdogEvidence.ActsOnlyWhenEscalating` | crates/controller/src/proxy_controller.rs:914-946 | a switch or degrade implies escalation: both windows over, a failed probe, and the required count or a present grade below the floor; and then the cycle is an escalation |
| `WatchdogDuties.FailuresWaitExactly` | crates/controller/src/proxy_controller.rs:914-965 | outside the courtesy window a failed probe with a present grade below the floor is enough at once, any other waits for the required count with a refreshed shortlist, and then the cooldown alone decides between resting and escalating |
| `WatchdogDuties.RearmsExactly` | crates/controller/src/proxy_controller.rs:899-912 | a cycle rearms exactly on a passed probe with a rescore due by cadence or quiet hours and catalog and sweep answering, and that alone resets the cadence |
| `WatchdogDuties.RescoresAreNeverOverdue` | crates/controller/src/proxy_controller.rs:899-912 | in every run the cadence counter is the number of passed probes since the last rescore, and stays below the configured cadence while catalog and sweep answer |
| `WatchdogDuties.CourtesyStopsExactly` | crates/controller/src/proxy_controller.rs:890-898 | a cycle rests for a manual switch exactly when it has an active node and the stamp is younger than the window, and then changes nothing |
| `WatchdogDuties.EscalationsEndExactly` | crates/controller/src/proxy_controller.rs:971-1047 | an escalation degrades exactly when nobody contends, is unconfirmed exactly when no contender is confirmed, and otherwise tries to switch to the cheapest confirmed contender, by the tracks it leaves behind, and to no other |
| `WatchdogDuties.HealsExactly` | crates/controller/src/proxy_controller.rs:1049-1083 | a degraded cycle heals exactly when somebody passed, is confirmed and can be switched to, and takes the one who ranks best |
| `WatchdogDuties.AdoptsExactly` | crates/controller/src/proxy_controller.rs:1107-1142 | an idle cycle that may adopt tries the cheapest of everybody who passed, reports a degrade exactly when nobody did, and otherwise stays idle |
| `WatchdogEvidence.DegradesExactlyWhenNoFinalistPasses` | crates/controller/src/proxy_controller.rs:984-1047 | with rescore slots for all finalists, escalation degrades exactly when no other finalist reached quorum |
| `WatchdogEvidence.DegradesTooEarlyExactly` | crates/controller/src/proxy_controller.rs:984-1047 | exactly when it degrades although a finalist passed, and then the rescore limit is below the finalists |
| `WatchdogEvidence.AdoptReportsDegradedExactly` | crates/controller/src/proxy_controller.rs:1106-1142 | adoption reports a degrade exactly when the catalog is not empty, the rescore answered and nobody reached the quorum, and then leaves the controller alone |
| `WatchdogEvidence.DegradedInNameOnlyExactly` | crates/controller/src/proxy_controller.rs:864-889 | a cycle reports a degrade on a controller that is not degraded exactly when it had nothing active, was to adopt, and nobody could be adopted |
| `WatchdogWitness.DegradesTooEarlyHappens` | crates/controller/src/proxy_controller.rs:984-1047 | for any limits with fewer slots than finalists, and any escalating state, an input on which escalation degrades past a node that passed |
| `WatchdogWitness.TooEarlyIsPossibleExactly` | crates/controller/src/proxy_controller.rs:984-1047 | a configuration has such an input exactly when it has fewer rescore slots than finalists |
| `WatchdogWitness.DegradedInNameOnlyHappens` | crates/controller/src/proxy_controller.rs:1129-1133 | an input, for every configuration that adopts, on which it happens |
| `WatchdogMachine.EgressWatchdog.RunCycle` | crates/controller/src/proxy_controller.rs:864-946 | the cycle on mutable status and controller ends in the specified state with the specified action |
| `WatchdogMachine.EgressWatchdog.AfterPassedProbe` | crates/controller/src/proxy_controller.rs:900-912 | resets the counter and rescores on cadence or in quiet hours |
| `WatchdogMachine.EgressWatchdog.AfterFailedProbe` | crates/controller/src/proxy_controller.rs:912-946 | counts, corroborates, waits, cools down or escalates as specified |
| `WatchdogMachine.EgressWatchdog.EscalateFrom` | crates/controller/src/proxy_controller.rs:984-1047 | the candidate loop ends in the specified state |
| `WatchdogMachine.EgressWatchdog.HealOrStayDegraded` | crates/controller/src/proxy_controller.rs:1051-1080 | the healing loop ends in the specified state |
| `WatchdogMachine.EgressWatchdog.AutoAdopt` | crates/controller/src/proxy_controller.rs:1106-1142 | adoption ends in the specified state |
| `Shortlist.FinalistsAreTheTop` | crates/controller/src/proxy_controller.rs:618-628 | finalists are live, in catalog order, as many as allowed, and outrank every live node left out |
| `Shortlist.FinalistsAreTheFastest` | crates/controller/src/proxy_controller.rs:618-628 | a live node is left out only for nodes swept at least as fast, one without a reading counting as the sentinel |
| `Shortlist.ShortlistIsTheBest` | crates/controller/src/proxy_controller.rs:514-674 | the shortlist holds the best scored finalists in selection order, each naming its own catalog entry once |
| `Shortlist.ShortlistReadsInOrder` | crates/controller/src/proxy_controller.rs:513-526 | passed before failed, then the smaller median with none last, then more verified checks, then catalog order: in the list, and against whoever was cut |
| `Shortlist.ScoresReportTheirTrials` | crates/controller/src/proxy_controller.rs:653-671 | a score carries the counts, quorum verdict, median and spread of its own finalist's trial, and one without a report has none |
| `Median.MinorityCannotMoveMedian` | crates/controller/src/proxy_controller.rs:491-511 | if more than half the verified latencies lie in an interval, so does the median, and the spread is at most its width |
| `Median.MedianAndSpreadExactly` | crates/controller/src/proxy_controller.rs:491-511 | the median is the only value that at most half of the verified latencies are below and more than half at most, and the spread the only distance from it that more than half lie within and at most half closer than |
| `Median.EveryVerifiedCheckCounts` | crates/controller/src/proxy_controller.rs:491-500 | there is one latency for every verified check of the report |
| `Median.MedianForgetsOrder` | crates/controller/src/proxy_controller.rs:491-511 | the result does not depend on the order of checks |
| `Median.NothingVerifiedExactly` | crates/controller/src/proxy_controller.rs:491-500 | no median exactly when nothing was verified |
| `Selection.EwmaIsTheWeightedSum` | crates/controller/src/auto_select.rs:57-75 | after any history the stored averages are the explicit weighted sums, with weights adding to one |
| `Selection.EwmaStaysAmongSamples` | crates/controller/src/auto_select.rs:57-75 | the latency and spread averages stay between their smallest and largest sample |
| `Selection.FailuresFadeSlowly` | crates/controller/src/auto_select.rs:57-91 | the failure weight stays in [0, 4] and k successes after a failure leave at least 2^-k |
| `Selection.CostIsBounded` | crates/controller/src/auto_select.rs:237-267 | after any history the cost is between zero and the weighted sum of its terms' caps |
| `Selection.RankingIsTheGateInCostOrder` | crates/controller/src/auto_select.rs:188-230 | exactly the quorum-passing nodes are ranked, in cost order |
| `SelectionCharges.NotWorseIsNotBehind` | crates/controller/src/auto_select.rs:188-267 | a node with no worse readings, share of verified checks and failures than another costs no more, and is behind it only at equal cost and by index |
| `SelectionCharges.AgreementSaves` | crates/controller/src/auto_select.rs:256-266 | each verified check more saves exactly the quorum weight's share of one check |
| `SelectionCharges.MoreAgreementNeverCostsMore` | crates/controller/src/auto_select.rs:256-266 | so more verified checks never cost more, and cost less where agreement has weight |
| `SelectionCharges.NoChecksAreNoAgreement` | crates/controller/src/auto_select.rs:256-260 | no check at all is charged like none verified |
| `SelectionCharges.SlowerCostsMore` | crates/controller/src/auto_select.rs:243-266 | without history a larger median never costs less, and costs more up to four scales |
| `SelectionCharges.UnsteadierCostsMore` | crates/controller/src/auto_select.rs:247-266 | likewise for the spread |
| `SelectionCharges.MissingReadings` | crates/controller/src/auto_select.rs:243-253 | a missing median counts as twice the scale, a missing spread as none |
| `SelectionCharges.HistoryDecides` | crates/controller/src/auto_select.rs:252-266 | with history the smoothed readings decide and the trial's do not, and a slower or wider one never costs less |
| `SelectionCharges.FailuresAreExtra` | crates/controller/src/auto_select.rs:84-95 | outstanding failures are charged on top, faded by the time since the last one |
| `SelectionCharges.WorseFailuresCostMore` | crates/controller/src/auto_select.rs:84-95 | a heavier or more recent failure never costs less, nor does any failure |
| `SelectionCharges.FlawlessCostsNothing` | crates/controller/src/auto_select.rs:238-267 | full agreement at once and no history costs nothing |
| `SelectionCharges.SuccessesHalve` | crates/controller/src/auto_select.rs:57-72 | k successes leave the 2^-k part of the failure weight and end the streak |
| `SelectionCharges.FailuresAddUp` | crates/controller/src/auto_select.rs:76-80 | a failure adds one up to four and is remembered, the readings stay |
| `SelectionCharges.CountersCount` | crates/controller/src/auto_select.rs:57-80 | after any history the two counters are the number of successes and of failures in a row, up to 32 bits |
| `SelectionCharges.RoundJudgesByTheGate` | crates/controller/src/auto_select.rs:396-415 | a round counts a passing score as a success with its readings and any other as a failure |
| `Selection.RoundTouchesScoredNodes` | crates/controller/src/auto_select.rs:396-415 | a round updates each scored node's track once by its own score and no other track |
| `Selection.RoundExtendsHistories` | crates/controller/src/auto_select.rs:396-415 | a round extends every node's history by what it says about that node |
| `Selection.AutoSelector.FoldRound` | crates/controller/src/auto_select.rs:396-415 | the loop over scores leaves the tracks map as the round says |
| `SwitchMargin.DecisionIsDecisive` | crates/controller/src/auto_select.rs:277-363 | the incumbent is kept exactly when nothing beats it by more than the margin, and a switch goes to a cheapest node |
| `SwitchMargin.UnrankedIncumbentIsReplaced` | crates/controller/src/auto_select.rs:311-353 | without an incumbent a cheapest node is adopted, and an incumbent that is not ranked is replaced by one outright |
| `SwitchMargin.SwitchLowersNominal` | crates/controller/src/auto_select.rs:311-363 | with noise w every switch lowers nominal cost by more than margin minus 2w |
| `SwitchMargin.NeverReturns` | crates/controller/src/auto_select.rs:311-363 | over any run with 2w at most the margin, an abandoned node is never selected again |
| `SwitchMargin.SwitchesAreBounded` | crates/controller/src/auto_select.rs:311-363 | switches times (margin minus 2w) never exceed the nominal range |
| `SwitchMargin.MarginIsSharp` | crates/controller/src/auto_select.rs:165-171 | two nodes of equal non-negative cost seesaw within noise w exactly when the margin is below 2w |
| `Supervisor.SwapIsTransactional` | crates/adapter/src/supervisor.rs:117-139 | success exactly when accepted and the spawn or signal works; a failed swap keeps the core's configuration and restores any previous file |
| `Supervisor.CoresTakeAcceptedFiles` | crates/adapter/src/supervisor.rs:67-115 | a core starts, or reloads while held, exactly on an accepted file and a foreign call that works, and then has that file; otherwise nothing changes |
| `Supervisor.RunsStayConsistent` | crates/adapter/src/supervisor.rs:67-139 | over every run, while a core is held the file is accepted and is what the core last loaded |
| `Supervisor.CoreSupervisor.ApplyConfig` | crates/adapter/src/supervisor.rs:117-139 | write, validate, reload or start, restore on failure: ends in the specified state |
| `Session.RunsStaySound` | crates/controller/src/proxy_controller.rs:233-322 | with the routing daemon absent or succeeding, a node is active exactly when the core runs its compiled configuration, and degraded implies none |
| `Session.OneSwitch` | crates/controller/src/proxy_controller.rs:233-293 | which failure a switch reports, that failures leave the active node, and exactly when a refused routing call breaks soundness |
| `Session.SwitchSucceedsExactly` | crates/controller/src/proxy_controller.rs:233-293 | a switch succeeds exactly when the node compiles, the core takes the configuration and the daemon does not refuse; each other failure has its own condition; success leaves the core running that configuration |
| `Session.StoppingStops` | crates/controller/src/proxy_controller.rs:295-322 | after a stop or a degrade nothing is active and no core runs, and only a degrade raises the flag |
| `Session.RefusedRoutingBreaksStep` | crates/controller/src/proxy_controller.rs:233-293 | from a fresh start a refused routing call leaves the core running a node that is not active |
| `Session.RefusedRoutingSwapsTheCore` | crates/controller/src/proxy_controller.rs:233-293 | from a tunnel that is up it leaves the core running another node than the active one |
| `Session.ProxyController.SwitchTo` | crates/controller/src/proxy_controller.rs:233-293 | compile, swap, route, record: ends in the specified state and result |
| `Repository.RunsRefineTheMap` | crates/storage/src/repository.rs:29-67 | after any run of syncs the tables are a plain map from subscription to its last accepted report, with exact links and no orphan |
| `Repository.SyncReplacesOneSubscription` | crates/storage/src/repository.rs:29-67 | an accepted sync replaces one subscription's hashes, ids of staying hashes persist, and new size is old plus inserted minus removed |
| `Repository.CatalogIsTheUnion` | crates/storage/src/repository.rs:56-59 | the catalog's hashes are the union of the subscriptions' reports |
| `Repository.RefusalChangesNothing` | crates/storage/src/repository.rs:29-41 | a sync is refused exactly on a disallowed empty report or a taken uuid, and then changes nothing |
| `Repository.NodeRepository.SyncSubscription` | crates/storage/src/repository.rs:29-67 | the statements of the transaction leave the tables and counts of the specified sync |
| `Repository.NodeRepository.EnsureNodes` | crates/storage/src/repository.rs:183-217 | the insert loop interns each reported hash once, keeps known ids and counts insertions |
| `Repository.NodeRepository.ReplaceLinks` | crates/storage/src/repository.rs:43-60 | swaps one subscription's links, then deletes and counts exactly the nodes no subscription links to |
| `DenseStore.FromHotRows` | crates/storage/src/soa_store.rs:163-183 | the push loop builds columns, offsets and index that represent the rows |
| `DenseStore.LookupFindsTheLastRow` | crates/storage/src/soa_store.rs:199-201 | a lookup answers a position exactly when it is the id's last row |
| `DenseStore.LookupInvertsExactlyWhenDistinct` | crates/storage/src/soa_store.rs:163-201 | lookup and id column are inverse exactly when no id repeats |
| `DenseStore.SourcesReadBackExactlyBelowWrap` | crates/storage/src/soa_store.rs:179-207 | every row's slice is its own subscriptions exactly when their total is below 2^32 |
| `DenseStore.WrappedRowLosesItsSources` | crates/storage/src/soa_store.rs:179-207 | every row with 2^32 subscriptions reads back as having none |
| `Hydration.HydrateFromDb` | crates/storage/src/soa_store.rs:114-159 | the three loops over nodes, links and rows yield the store of the listed rows, and refuse exactly when an id does not fit its column |
| `Hydration.SourcesAreReports` | crates/storage/src/soa_store.rs:139-151 | a hydrated row carries a subscription exactly when that subscription last reported its hash |
| `Hydration.HydratedIsBuilt` | crates/storage/src/soa_store.rs:114-183 | ids do not repeat, and with scores of at most 100, which the schema enforces, hydration is the store built from the rows |
| `Snapshot.RunsAreThePlainMap` | crates/storage/src/snapshot.rs:47-84 | after any run of replace, publish and batch, the layers read back as a plain map from id to card |
| `Snapshot.LiveIsTheLastWord` | crates/storage/src/snapshot.rs:47-84 | a card shows the last update published since the last replacement or batch, else its unverified baseline |
| `Snapshot.StoreSnapshot.PublishMetrics` | crates/storage/src/snapshot.rs:58-74 | the update loop writes the arena and changes the plain map by each update in order |
| `Snapshot.StoreSnapshot.UpdateMetricsBatch` | crates/storage/src/snapshot.rs:78-84 | the batch rewrites baselines and resets every live reading to them |
| `SnapshotRace.MisalignedExactlyWhenStraddled` | crates/storage/src/snapshot.rs:47-84 | under every interleaving of the publishing and the replacing thread, at rest the arena belongs to another store than the one served exactly when a publication copied it before the last replacement put its own in place and put it back after |
| `SnapshotRace.AtHomeIsAligned` | crates/storage/src/snapshot.rs:47-84 | otherwise arena and store are aligned, at every moment |
| `SnapshotRace.AnothersReadingIsShown` | crates/storage/src/snapshot.rs:58-74 | a run after which a reading verified for one node is shown as verified for another |
| `Query.QueryIsTheSortedFilter` | crates/storage/src/query_engine.rs:52-83 | the result is the only strictly ordered list of exactly the accepted rows |
| `Query.QueryReadsInOrder` | crates/storage/src/query_engine.rs:69-92 | a row stands above another exactly when its latency, country, name or health, whichever the view asks for, comes first, and by id among equals |
| `Query.TextOrder` | crates/storage/src/query_engine.rs:76-77 | text compares less exactly when it ends where the other goes on or has the smaller character where they first differ |
| `Query.ContainsAnywhere` | crates/storage/src/query_engine.rs:61-68 | a search matches exactly when the text is the term with anything before and after it |
| `Query.FilterIsTheRowFilter` | crates/storage/src/query_engine.rs:61-68 | on a built store the filter is the filter on rows |
| `Query.LiveQueryIsAStoreQuery` | crates/storage/src/query_engine.rs:13-50 | the live query is the plain query of a store holding the arena's readings |
| `Query.FreshArenaChangesNothing` | crates/storage/src/query_engine.rs:13-50 | on a fresh arena the two queries agree |
| `Query.UntestedRowsComeTogether` | crates/storage/src/query_engine.rs:69-92 | ascending latency puts untested rows last, descending puts them first |
| `CatalogView.ListIsDecidedByThePlainMap` | crates/storage/src/query_engine.rs:33-83 | after any run of replacements, publications and batches, the live query lists exactly the accepted cards of the plain map, in the order of their live readings, countries or names |
| `Hydration.LiveListIsTheLastReport` | crates/storage/src/soa_store.rs:114-159 | from end to end: after any run of syncs, a hydration and any metrics published or batched since, the live list of a subscription names exactly the nodes of its last accepted report |
| `Projection.LatestRequestIsNeverLost` | crates/gui/src/virtual_model.rs:48-111 | over every interleaving, also between the drained channel and the store check, the newest item carries the desired view, and an idle pipeline shows it, over the served store unless one came after the last request |
| `Projection.InstalledAnswersItsView` | crates/gui/src/virtual_model.rs:51-111 | what is installed lists exactly the accepted rows of its own store, once each, in the strict order of readings that were published |
| `Projection.EveryDrainEnds` | crates/gui/src/virtual_model.rs:51-111 | left alone, a busy pipeline stops within a bound, without deadlock on the full channel, showing the desired view over the served store |
| `VirtualModel.InstalledRowsInvert` | crates/gui/src/virtual_model.rs:113-125 | in every run, installed indices are in range and the row map is their exact inverse |
| `VirtualModel.TickIsARun` | crates/gui/src/virtual_model.rs:94-111 | a tick is a run of the pipeline's steps |
| `VirtualModel.VirtualNodeModel.ApplyCompletedProjection` | crates/gui/src/virtual_model.rs:94-111 | drains the channel, installs the last result or asks again, and keeps the row map in step |
| `VirtualModel.VirtualNodeModel.RebuildReverse` | crates/gui/src/virtual_model.rs:113-125 | the loop builds the row map of the installed indices |
| `Netlink.WalkDatagram` | crates/probe/src/socket_health.rs:280-305 | for arbitrary bytes every slice is in bounds and the walk interprets the framed messages in order |
| `Netlink.ReadReplies` | crates/probe/src/socket_health.rs:243-308 | the receive loop's result over any arrivals |
| `Netlink.CollectMessage` | crates/probe/src/socket_health.rs:310-345 | the attribute loop finds what the scan finds, in bounds for arbitrary bytes |
| `Netlink.FramesReadBack` | crates/probe/src/socket_health.rs:280-305 | a concatenation of well-formed padded messages yields each payload once and in order |
| `Netlink.FramesFit` | crates/probe/src/socket_health.rs:280-305 | for arbitrary bytes every payload is a slice of what was received, one header apart from the next |
| `Netlink.DumpsAreReadThrough` | crates/probe/src/socket_health.rs:263-307 | messages are visited until done or an error, however the dump was cut into datagrams |
| `Netlink.InterpretStopsAtTheFirstEnd` | crates/probe/src/socket_health.rs:288-304 | everything before the first done, nonzero error or spinning message is harvested in order, and that message alone decides whether the walk is done, failed or hangs |
| `Netlink.ErrorsReadBack` | crates/probe/src/socket_health.rs:288-299 | an error message with a number in two's complement fails the walk with that number negated, and number zero does not end it |
| `Netlink.CutDumpsEnd` | crates/probe/src/socket_health.rs:253-276 | a dump cut short by the timeout or an empty datagram leaves what was harvested, one cut by a socket error fails, and nothing after the cut counts |
| `Netlink.ReplyYieldsItsFirstInfo` | crates/probe/src/socket_health.rs:310-345 | a well-formed reply yields the first info attribute of an established socket and nothing else |
| `Netlink.LoopsForeverExactlyOnStall` | crates/probe/src/socket_health.rs:320-344 | the loop taken turn by turn never ends exactly when the scan stalls, and otherwise ends with its answer |
| `Netlink.StallsExactlyAtZeroLength` | crates/probe/src/socket_health.rs:320-344 | it stalls exactly when it reaches a zero-length attribute other than the info |
| `Netlink.ZeroLengthAttributeHangs` | crates/probe/src/socket_health.rs:310-345 | a 76-byte reply of an established socket on which the loop never ends |

## Left out

- SOCKS5, TLS and HTTP exchanges, testbed processes and real probing: only their results appear, as parameters.
- `sing-box`, `nft`, `ip`, SQLite and signals: foreign; a validator, an all-or-nothing backend and relations stand for them.
- nftables rendering, outbound compilation, URI and Clash parsing: wide mappings that would add easy members only.
- UID authorisation, frame decoding, and the field checks of `validate_config`: a decoded request carries its settings or the fact that they were refused.
- Panics, poisoned locks and process death while the core is held; file writes succeed.
- NetdDeadman.OwnerLostExactlyOnFailedReenable: one request after the other; `NetdOwner.OwnerlessExactly` has every interleaving.
- WatchdogRuns.InterventionsArePaced: cycles and manual switches follow one another; a switch inside a cycle is the subject of `WatchdogShared`.
- WatchdogRuns.DegradedMeansNoNode: likewise for whole degrades; `WatchdogFlag.DegradedWithANodeExactly` has the writes one by one.
- Session.RunsStaySound: orders are whole; `WatchdogCore.CoreRunsUnnamedExactly` has stops and switches write by write.
- WatchdogSession.WatchdogKeepsTheTunnelSound: likewise, one event after the other.
- Failing switches under the interleavings of `WatchdogShared`: a switch there takes the core and is routed; `Session` has the failures.
- `status.active_node`, `status.degraded` and the overflow of the 32-bit cycle counter: display fields and an unreachable count.
- Rounding and NaN in costs: reals.
- The per-target status and detail text of a check, and the text of errors.
- `parse_tcp_info` and `health_grade`: a collected statistic is the bytes of its info attribute.
- The jitter, packet-loss, last-tested and operational columns of the arena, which nothing modelled writes; the SQL of the two hydration queries, which are any listings that agree with the tables.
- Several publishing or several replacing threads at once: the program has one of each, and `SnapshotRace` models those.
- Row rendering, selection and point notifications of the list model.
- Overwritten node metadata: a known hash keeps its row, and only hash and id are modelled.
- Netlink.ReadReplies: integers are little-endian, and a list of arrivals that runs out stands for the receive timeout.
- Repository.NodeRepository.SyncSubscription: the name, url, interval and etag columns of a subscription are not modelled.

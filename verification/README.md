# Verification of the MySQL wrapper's group, archive and restore logic

This project models four cores of the `mysql-wrapper` crate and proves what they promise:

1. **Group bootstrap.** Declared members compare executed transaction sets and each decides alone
   whether to bootstrap, join or wait (`bootstrap.dfy`); a lone survivor re-forms a blocked group
   (`survivor.dfy`); dwells, waived peers and the membership fence bound what silence may prove
   (`waiver.dfy`); the whole group runs as a transition system with crashes, restarts, joins,
   writes, departures and re-formations (`group_protocol.dfy`); and once waivers may fork the
   history, what group identities and transaction identities still prove (`waiver_identity.dfy`).
2. **Archive and restore.** Which binlogs replay, in which runs (`binlog_names.dfy`,
   `replay_plan.dfy`); which full a target selects and which fulls a horizon keeps
   (`archive.dfy`); the two retention planners (`retention.dfy`, `shared_retention.dfy`), what a
   sweep of independent lineages leaves of their restores (`retention_safety.dfy`), also when some
   fulls could not be read (`unread_fulls.dfy`), and a lineage and a shared history swept over
   time (`lineage_archive.dfy`, `shared_archive.dfy`); the two replays and what they accept
   (`shared_restore.dfy`, `lineage_restore.dfy`), on a swept archive as on one never swept
   (`shared_acceptance.dfy`); the binlog head parser (`binlog_head.dfy`).
3. **Shipping.** The purge cuts (`purge.dfy`), the shipping pass over a volume that can crash
   (`shipping.dfy`), re-anchoring past a lost binlog (`gap_anchor.dfy`), and the full-backup
   latch in every interleaving (`backup_latch.dfy`).
4. **Restore-on-boot.** The marker on the volume and the bounded wipe-and-retry
   (`restore_boot.dfy`).

Code that works step by step is a method or a class whose contract ties it to a specification
function, and the properties are proved about that function; rules that only compute are
functions. `dafny verify dfyconfig.toml` checks everything.

## Where the code and its documentation part

- **Tie-break inputs differ between nodes.** `decide` judges its own side by the marker file alone,
  while a node advertises marker file *or* database flag (gr.rs:419-429, 1202-1206), although the
  comment on `decide` says both inputs are identical everywhere. An adopted volume and its clone
  with equal sets can defer to each other for ever
  (`Bootstrap.AdopterAndItsCloneCanDeferToEachOther`). `Bootstrap.ExactlyOneWinnerExactly` gives
  the exact condition for a winner; safety (at most one) needs no such proviso.
- **An adopted name can be used without the data behind it.** A joiner takes over the live group's
  name and generation before its data is compared or recloned (gr.rs:1844-1880, then 1918-1996).
  If it holds a diverged history and that group goes down in between, it can win the next round by
  seed order, bootstrap under the adopted name, and mint identities its peer already holds; the
  peer is then admitted by its set although its log is no prefix of the group's
  (`WaiverIdentity.AdoptingBeforeRecloningForksInvisibly`) -- the invisible fork that minting a
  fresh name is documented to rule out (gr.rs:2262-2279). The exact condition is one the
  bootstrapping node could check in the answers of its round: no peer holds an identity minted
  under the name about to be kept that it lacks itself (`WaiverIdentity.KeptNameIsSafeExactly`).
  In every run whose rounds meet it, however late their verdicts are acted on, comparable sets do
  mean prefix logs (`WaiverIdentity.ComparableSetsArePrefixes`).
- **Unread fulls.** The independent planner refuses to expire anything of a lineage *none* of whose
  fulls could be read. When some were read and others not, it judges by those it read: an older
  unread full can lose the binlogs it needs (`UnreadFulls.OlderUnreadFullLosesItsBinlogs`), and a
  dead lineage whose only full inside the window went unread is retired under it
  (`UnreadFulls.NewerUnreadFullLosesItsLineage`). `UnreadFulls.PlanKeepsRestoreExactly` gives the
  exact condition for every full, read or not, and every fate, from the listing alone: no full
  was read at all, or the lineage is active or has a read full inside the horizon and the full's
  coordinate is not below the oldest kept one's (`UnreadFulls.ByCoordinateAlone`). The shared
  planner is inert unless every meta was read.
- **Retiring a dead lineage** can take the base of a target just past the cutoff: exactly when its
  newest full is older than the cutoff (`RetentionSafety.ArchiveSelectionSurvivesExactly`, and a
  concrete archive in `RetentionSafety.RetiringSwapsTheSelection`).
- **The gap flag is one boolean.** A second loss recorded while the first one's full is dumping is
  forgotten when that full lands (`GapAnchor.SecondLossIsForgotten`); the promise is kept exactly
  when every such loss lies below a landed coordinate.
- **A rotted restore marker** resets the attempt count, and makes a boot that still carries the
  recovery configuration wipe a database that has served. `RestoreBoot.Volume.Boot` states exactly
  when the wipe happens and what each boot adds to the count; over any run of boots the attempts
  stay within three for every time the marker rotted, and three more (`RestoreBoot.RunAll`).

## Assumptions

- A peer's answer is truthful at the instant of the round; a round is one snapshot and acting on it
  a later step. A survivor's STOP and bootstrap are one step. A recovering member applies only
  while some member of its group is live; an elected primary has executed the whole group log; a
  survivor has applied everything delivered before its view last shrank. Every run starts with
  volumes that hold prefixes of one history, one of them all of it.
- One clock: a binlog's upload is no earlier than its events, a full's snapshot no earlier than its
  name, and a file below a full's coordinate in its own lineage holds nothing past the snapshot.
- Fulls land in the order of their names, and over a shared history their snapshots are ordered as
  the names are: of two fulls, whichever lineages they are from, the one named later shows at least
  as much of the history (`SharedArchive.RetentionIsInvisible` and what rests on it). Fulls are taken at distinct instants: on a tie the
  selection prefers the larger server identity and the horizon the smaller dump key
  (`Archive.TiedInstantsCanSwapTheSelection`).
- Within a lineage a later full's coordinate is no smaller, binlog names parse and carry distinct
  sequences; with an unparseable name mixed in, the name order is not transitive
  (`BinlogNames.NameOrderCanCycle`).
- A binlog's Previous_gtids holds every transaction of its lineage's earlier files, and nothing the
  shared history had not committed when the file was opened. For the point reached (not for
  completeness) a full is named after the snapshot of every earlier full.
- In `waiver_identity.dfy` a run starts from any volumes whose logs agree; a pre-GTID marker file is
  on a volume from the start and goes with it, and the replicated flag is set by group members.
- The InProgress marker lands before the system schema's directory exists.

## Model

| member | source | states |
|---|---|---|
| `Bootstrap.SafeExactly` | mysql-wrapper/src/gr.rs:1124-1207 | one node's verdict is safe if and only if every peer it asked answered, is in no group, can be compared, and does not outrank it |
| `Bootstrap.EveryVerdictExactly` | mysql-wrapper/src/gr.rs:1124-1265 | each of the five verdicts exactly when its fields say so: a live group anywhere; else an answer missing or without a set; else a larger set, or a diverged one with more authority; else an equal one that precedes; else safe |
| `Bootstrap.JoinsARealGroup` | mysql-wrapper/src/gr.rs:320-342 | over truthful answers a node joins exactly when some peer is ONLINE or recovers in a view that shows somebody ONLINE: joins stuck on each other are no group |
| `Bootstrap.LoserNamesAnOutrankingPeer` | mysql-wrapper/src/gr.rs:1239-1265 | a loser names a peer it asked, whose answer really outranks it |
| `Bootstrap.DivergenceIsAlwaysResolved` | mysql-wrapper/src/gr.rs:1158-1200 | divergence never reaches the decision unresolved |
| `Bootstrap.TwoNodesNeverBothSafe` | mysql-wrapper/src/gr.rs:1124-1265 | two nodes that heard each other never both conclude safe, whatever else their rounds held and however their pre-GTID flags were read |
| `Bootstrap.AtMostOneWinner` | mysql-wrapper/src/gr.rs:1137-1265 | with all peers answering, at most one node may bootstrap, for any number of nodes, any datasets, generations and flags |
| `Bootstrap.ExactlyOneWinnerExactly` | mysql-wrapper/src/gr.rs:1229-1265 | with pairwise comparable datasets there is exactly one winner if and only if the earliest complete advertiser can judge itself |
| `Bootstrap.DeferralClimbs` | mysql-wrapper/src/gr.rs:1239-1265 | with comparable datasets and agreeing flags every loser names a strictly better node: the deferral graph is acyclic |
| `Bootstrap.FollowDeferral` | mysql-wrapper/src/gr.rs:1239-1265 | following the names from any node terminates at a node that may bootstrap |
| `Bootstrap.AllDeferralsMeet` | mysql-wrapper/src/gr.rs:1239-1265 | every chain of deferrals ends at the same node |
| `Bootstrap.AdopterAndItsCloneCanDeferToEachOther` | mysql-wrapper/src/gr.rs:1202-1206 | the advertised flag is not the one a node judges itself by: two equal nodes can each defer to the other |
| `Bootstrap.DivergenceCanCycle` | mysql-wrapper/src/gr.rs:1216-1265 | with a diverged history among three nodes every one can be beaten by another |
| `Survivor.ForceMeansEveryoneElseDeparted` | mysql-wrapper/src/gr.rs:576-653 | the verdict is Force only when every other member of the view proved it left for something else |
| `Survivor.ForceExactly` | mysql-wrapper/src/gr.rs:576-653 | an ONLINE member is told to re-form if and only if it knows its group and every other member of its view is unreachable and proves its departure |
| `Survivor.ForceByTheFields` | mysql-wrapper/src/gr.rs:576-653 | the same by the fields of the answers: each other member answered under this group's name, in no group or alone in its view and recovering |
| `Survivor.OperatingPeerRulesForceOut` | mysql-wrapper/src/gr.rs:597-632 | a peer in an operating group of two or more, or under another name, rules Force out |
| `Survivor.ReformationIsExclusive` | mysql-wrapper/src/gr.rs:576-653 | while another member of the blocked view is ONLINE in its own view the verdict is not Force, so two members never both re-form it |
| `Survivor.MajorityWatch.Poll` | mysql-wrapper/src/gr.rs:868-942 | one poll moves the counters as specified and re-forms only after the full streak and within the attempt cap |
| `Survivor.StreakIsUnbroken` | mysql-wrapper/src/gr.rs:868-892 | over every trace the counter counts only an unbroken run of Force observations at its end |
| `Survivor.AttemptsAreCapped` | mysql-wrapper/src/gr.rs:934-942 | over every trace there are at most three re-formations |
| `Survivor.ReformationNeedsAnUnbrokenProof` | mysql-wrapper/src/gr.rs:868-932 | whenever a poll re-forms, the fifteen polls up to it all read Force |
| `Survivor.FifteenthRoundReforms` | mysql-wrapper/src/gr.rs:868-942 | and fifteen are enough: from a clear count, with the data gate passed and fewer than three attempts made, the fifteenth Force poll re-forms |
| `GroupProtocol.StepKeepsInv` | mysql-wrapper/src/gr.rs:1284-2430 | every step of the group keeps the invariant |
| `GroupProtocol.RunsKeepInv` | mysql-wrapper/src/gr.rs:1284-2430 | so does every run from any restart of the whole cluster |
| `GroupProtocol.OneGroupOneHistory` | mysql-wrapper/src/gr.rs:9-51 | in every run at most one group incarnation is live and any two executed logs are prefixes one of the other |
| `GroupProtocol.FormedGroupsAreComplete` | mysql-wrapper/src/gr.rs:2249-2378 | whoever forms a group, on boot or as a survivor, holds everything any declared member holds and nobody else is live |
| `GroupProtocol.SurvivorHoldsEverything` | mysql-wrapper/src/gr.rs:892-932 | a re-forming survivor is alone and its log is the whole history |
| `GroupProtocol.NothingIsLost` | mysql-wrapper/src/gr.rs:9-51 | the history only grows, no member's log shrinks, and some volume always holds all of it |
| `GroupProtocol.RecloneNeverFires` | mysql-wrapper/src/gr.rs:1158-1200 | without a waiver no member ever meets a primary that lacks its transactions |
| `GroupProtocol.OutageRecoversExactly` | mysql-wrapper/src/gr.rs:1229-1265 | at any point of any run a total outage can recover by itself if and only if the earliest complete advertiser can judge itself |
| `WaiverIdentity.StepKeepsInv` | mysql-wrapper/src/gr.rs:1832-2378 | every step -- rounds, waivers, bootstraps on earlier verdicts, adoption, joins, reclones, writes, crashes, lost volumes -- keeps one identity meaning one transaction with one past, and every undone decision to keep a name standing, provided the rounds that keep a name are covered |
| `WaiverIdentity.ComparableSetsArePrefixes` | mysql-wrapper/src/gr.rs:2262-2279 | in every such run, waivers and forks included and however long after its round a verdict is acted on, a transaction set contained in another belongs to a log that is a prefix of the other |
| `WaiverIdentity.SafeRoundHasNoRival` | mysql-wrapper/src/gr.rs:2249-2260 | a round that waives nobody and reads safe finds no member that beats this one, so none that has decided to keep the same name and not acted yet |
| `WaiverIdentity.KeptNameIsSafeExactly` | mysql-wrapper/src/gr.rs:2276-2325 | a round that keeps the name can be trusted with whatever is written after it if and only if no peer in it holds an identity of that name that the member lacks |
| `WaiverIdentity.OnlyADivergedPeerUncovers` | mysql-wrapper/src/gr.rs:1158-1200 | that fails only where the verdict won over a diverged peer |
| `WaiverIdentity.UncoveredNameCollides` | mysql-wrapper/src/gr.rs:2262-2279 | forming a group under a name with identities it lacks, a member can mint one of them again with its first write: why a waiver needs a fresh name |
| `WaiverIdentity.AdoptingBeforeRecloningForksInvisibly` | mysql-wrapper/src/gr.rs:1844-1996 | a reachable state in which a member is admitted by its set with a log that is no prefix of the group's |
| `WaiverIdentity.AWaiverForksInTheOpen` | mysql-wrapper/src/gr.rs:2262-2279 | waiving a silent peer can fork the history, and under the fresh name neither set contains the other |
| `WaiverIdentity.AWaiverIsTheAuthority` | mysql-wrapper/src/gr.rs:2280-2290 | the generation a waiver bootstrap mints wins over its own past and over every peer its round considered, and is one more than the greatest of those |
| `WaiverIdentity.MutualWaiversTieExactly` | mysql-wrapper/src/gr.rs:2280-2290 | two members that waive each other both lead a group, with equal generations exactly when theirs were equal before; seed order then decides |
| `Waiver.RipeExactly` | mysql-wrapper/src/gr.rs:1064-1073 | a dwell clock is ripe exactly when its latest uninterrupted stretch began at an instant at least the dwell before now, or there is no dwell |
| `Waiver.BootstrapDwell.Pass` | mysql-wrapper/src/gr.rs:2249-2260 | one pass advances or voids the dwell and acts exactly when the verdict is safe and now less the start of the stretch is at least the dwell |
| `Waiver.ActingMeansHeldForTheDwell` | mysql-wrapper/src/gr.rs:2249-2260 | a node acts on a safe verdict only after every pass of a stretch of at least the dwell read safe |
| `Waiver.GoneTracker.Observe` | mysql-wrapper/src/gr.rs:1052-1062 | an observation starts, keeps or voids that host's clock and touches no other |
| `Waiver.GoneTracker.ObserveReachable` | mysql-wrapper/src/gr.rs:1064-1066 | reaching a host voids its proof |
| `Waiver.GoneTracker.EffectiveMembership` | mysql-wrapper/src/gr.rs:763-795 | the fence's loop discounts exactly the hosts not ONLINE whose clock started at least the dwell ago |
| `Waiver.TrackerIsOneClockPerHost` | mysql-wrapper/src/gr.rs:1041-1073 | over every trace the tracker's entry for a host is that host's own clock |
| `Waiver.WaivedExactly` | mysql-wrapper/src/gr.rs:1068-1073 | a host is waived exactly when its latest uninterrupted stretch of gone observations began at least the dwell ago |
| `Waiver.FencedExactly` | mysql-wrapper/src/gr.rs:659-665 | a side may write exactly while its ONLINE members are a strict majority of the declared members it has not waived |
| `Waiver.FenceAdmitsOneSide` | mysql-wrapper/src/gr.rs:659-665 | of two disjoint components, each waiving only hosts truly gone, at least one is fenced |
| `Waiver.WaivingTheLivingUnfencesBoth` | mysql-wrapper/src/gr.rs:763-795 | waiving hosts that are alive can leave both sides writable |
| `BinlogNames.SortedAscends` | mysql-wrapper/src/pitr.rs:664-669 | names that parse to distinct sequences sort strictly, whatever order they came in |
| `BinlogNames.AscendingIsUnique` | mysql-wrapper/src/pitr.rs:664-669 | that order is determined by the set of names |
| `BinlogNames.PaddedNamesParse` | mysql-wrapper/src/pitr.rs:656-658 | a zero-padded decimal suffix parses to its value, whatever stands before the dot |
| `BinlogNames.NameOrderCanCycle` | mysql-wrapper/src/pitr.rs:656-669 | one unparseable name makes the comparison a cycle |
| `ReplayPlan.BinlogsToReplay` | mysql-wrapper/src/pitr.rs:783-821 | the planning loop computes the specified plan |
| `ReplayPlan.BinlogRunsPastGap` | mysql-wrapper/src/pitr.rs:830-848 | the splitting loop computes the specified runs |
| `ReplayPlan.RunIsMaximal` | mysql-wrapper/src/pitr.rs:783-821 | the run is the maximal consecutive sequence from the start file, and a gap is reported exactly when a later file exists past it |
| `ReplayPlan.ConsecutiveNamesPlanWhole` | mysql-wrapper/src/pitr.rs:783-821 | names a server gives in a row replay whole from the first, with no gap |
| `ReplayPlan.ReplayIsAnExactPartition` | mysql-wrapper/src/pitr.rs:783-848 | the run and the runs past the gap list every file at or after the start once and in order, split at real holes, for input in any order |
| `ReplayPlan.ReplayWithoutTheStartFile` | mysql-wrapper/src/pitr.rs:783-821 | with the start file missing nothing is in the run, and a gap is reported exactly when a later file exists |
| `ReplayPlan.ReplayedFiles` | mysql-wrapper/src/pitr.rs:783-848 | what replays is every file at or past the start |
| `ReplayPlan.PlanIgnoresEarlierFiles` | mysql-wrapper/src/pitr.rs:783-848 | removing files below the start changes neither run nor gap nor what replays |
| `Archive.FloorToMillis` | mysql-wrapper/src/pitr.rs:150-155 | the greatest whole millisecond not after the instant |
| `Archive.NewestQualifying` | mysql-wrapper/src/pitr.rs:343-356 | the selection qualifies at the target, no qualifying full is newer, and there is none only when nothing qualifies |
| `Archive.KeptAreNewest` | mysql-wrapper/src/pitr.rs:981-1002 | what is kept is newest first, never fewer than the floor count and never nothing |
| `Archive.KeptExactly` | mysql-wrapper/src/pitr.rs:967-1002 | a full is kept if and only if it is inside the horizon, among the newest few, or every newer one is inside the horizon |
| `Archive.LeftOutIsCovered` | mysql-wrapper/src/pitr.rs:973-1002 | anything left out is no newer than every kept full, the oldest of which reaches back to the cutoff |
| `Archive.SelectionSurvives` | mysql-wrapper/src/pitr.rs:973-1002 | for every target at or past the cutoff the kept fulls alone select the same full |
| `Archive.KeptAgain` | mysql-wrapper/src/pitr.rs:981-1002 | choosing again among exactly the kept fulls keeps them all |
| `Archive.TiedInstantsCanSwapTheSelection` | mysql-wrapper/src/pitr.rs:987-992 | on a tie the horizon can drop the full the selection prefers |
| `Archive.MetaKeysAreApart` | mysql-wrapper/src/pitr.rs:1376-1380 | on dump names the meta's key is its own and no dump's |
| `Archive.CollectOverdue` | mysql-wrapper/src/pitr.rs:1063-1067 | the orphan loop collects exactly the orphans seen more than six hours ago |
| `Archive.CollectFulls` | mysql-wrapper/src/pitr.rs:1139-1148 | the loop over fulls names both objects of each full dropped and counts the rest |
| `Archive.CollectBinlogs` | mysql-wrapper/src/pitr.rs:1163-1173 | the loop over binlogs names exactly those the rule drops and counts the rest |
| `Retention.PlanRetention` | mysql-wrapper/src/pitr.rs:1006-1197 | the planner computes the specified plan |
| `Retention.RulesByTheListing` | mysql-wrapper/src/pitr.rs:1006-1048 | one full anywhere that declares a GTID set, or the marker, brings the shared rules; otherwise nothing is planned unless the active lineage lists a full |
| `RetentionSafety.BlindPassNamesNothing` | mysql-wrapper/src/pitr.rs:1006-1022 | with no active lineage, or no horizon, all four lists are empty |
| `RetentionSafety.ActiveStaysRestorable` | mysql-wrapper/src/pitr.rs:1032-1048 | over independent lineages, if a pass names anything at all, the active lineage lists a full neither of whose objects it names |
| `Retention.PlanEachLineage` | mysql-wrapper/src/pitr.rs:1060-1194 | the loop over lineages computes the specified plan |
| `Retention.FullIsPlanned` | mysql-wrapper/src/pitr.rs:1060-1149 | in a bucket where keys are distinct an object of a full is named exactly when its lineage's fate drops that full |
| `Retention.BinlogIsPlanned` | mysql-wrapper/src/pitr.rs:1150-1178 | a binlog is named exactly when its lineage's fate drops it |
| `Retention.PlannedOrphans` | mysql-wrapper/src/pitr.rs:1063-1067 | an orphan dump is named exactly when it was seen more than six hours ago |
| `RetentionSafety.SweepFollowsTheFate` | mysql-wrapper/src/archiver.rs:1399-1441 | deleting any part of a plan, a meta without its dump included, takes from each lineage only what its fate drops; deleting all of it takes all of that |
| `RetentionSafety.InWindowRestoresSurvive` | mysql-wrapper/src/pitr.rs:1006-1197 | for every lineage the planner's plan does not retire, every target at or past the cutoff and any part of that plan deleted, the full selected, its plan (run and gap) and everything it replays are unchanged |
| `RetentionSafety.TrimmedBinlogsExactly` | mysql-wrapper/src/pitr.rs:1150-1178 | a trimmed lineage loses exactly the binlogs below the coordinate of every full it keeps |
| `RetentionSafety.ActiveKeepsItsCount` | mysql-wrapper/src/pitr.rs:1114-1149 | no sweep leaves the active lineage fewer than two fulls, or than it had |
| `RetentionSafety.PlanningAgainDeletesNothing` | mysql-wrapper/src/pitr.rs:1006-1197 | planning again after the whole plan was carried out plans nothing |
| `RetentionSafety.ArchiveSelectionSurvivesExactly` | mysql-wrapper/src/pitr.rs:1055-1113 | a full sweep leaves an in-window target's full selected if and only if it is in the active lineage or in one with a full inside the horizon |
| `RetentionSafety.RetiringSwapsTheSelection` | mysql-wrapper/src/pitr.rs:1100-1119 | a concrete archive in which retiring a dead lineage swaps the full an in-window target selects |
| `LineageArchive.StepKeepsInv` | mysql-wrapper/src/pitr.rs:1006-1197 | landing fulls, uploads, passes and single deletions, in any interleaving, keep what stands in for what is planned away |
| `LineageArchive.SweepsAreInvisible` | mysql-wrapper/src/pitr.rs:1006-1197 | over any sequence of passes, each finding the lineage active or dead and carried out in any part, every in-window target of a lineage none of them retired selects, plans and replays as if it had never been swept |
| `LineageArchive.ActiveAlwaysKeepsTwo` | mysql-wrapper/src/pitr.rs:1114-1149 | however often it was swept, a lineage every pass found active keeps two fulls, or all it ever had |
| `UnreadFulls.RestoreSurvivesExactly` | mysql-wrapper/src/pitr.rs:1068-1178 | with unread fulls or without, an in-window restore survives the whole sweep if and only if the listing before it shows that the full selected keeps its binlogs, whatever the lineage's fate |
| `UnreadFulls.WindowSurvivesExactly` | mysql-wrapper/src/pitr.rs:1068-1178 | all in-window restores of a lineage survive if and only if every full some in-window target selects keeps its binlogs |
| `UnreadFulls.KeptRestoreSurvives` | mysql-wrapper/src/archiver.rs:1399-1441 | where the selected full keeps its binlogs, so does any part of the sweep |
| `UnreadFulls.PlanKeepsRestoreExactly` | mysql-wrapper/src/pitr.rs:1006-1197 | once the planner's whole plan was carried out, an in-window restore of a lineage with unread fulls is what it was if and only if the full selected keeps its binlogs |
| `UnreadFulls.PlanKeepsWindowExactly` | mysql-wrapper/src/pitr.rs:1006-1197 | and all of them are if and only if every full some in-window target selects keeps its binlogs |
| `UnreadFulls.PartOfPlanKeepsRestore` | mysql-wrapper/src/archiver.rs:1399-1441 | whatever part of the plan was deleted, a restore whose full keeps its binlogs is what it was, and no unread full lost an object |
| `UnreadFulls.UnreadIsNeverPlanned` | mysql-wrapper/src/pitr.rs:1060-1149 | no pass names an object of a full it could not read |
| `UnreadFulls.ByCoordinateAlone` | mysql-wrapper/src/pitr.rs:1068-1178 | an unread full keeps its binlogs exactly when none of its lineage's fulls was read, or the lineage is not retired and the oldest kept coordinate is no later than its own |
| `UnreadFulls.OlderUnreadFullLosesItsBinlogs` | mysql-wrapper/src/pitr.rs:1150-1178 | a concrete lineage in which an older unread full, selected inside the window, loses binlogs it replays |
| `UnreadFulls.NewerUnreadFullLosesItsLineage` | mysql-wrapper/src/pitr.rs:1100-1119 | a concrete dead lineage retired whole although an unread full inside the window is selected |
| `SharedRetention.PlanSharedRetention` | mysql-wrapper/src/pitr.rs:1237-1373 | the shared planner computes the specified plan |
| `SharedRetention.OnlyUnkeptFullsExpire` | mysql-wrapper/src/pitr.rs:1283-1318 | the plan names exactly the fulls outside the archive-wide window, by both their objects, and no orphan it names is a full's dump |
| `SharedRetention.PlannedBinlogs` | mysql-wrapper/src/pitr.rs:1322-1342 | the plan names exactly the redundant binlogs: by sequence in the floor's lineage, by a known upload time elsewhere |
| `SharedRetention.InertExactly` | mysql-wrapper/src/pitr.rs:1251-1292 | a floor is missing exactly while some full is unread or there is none, and then nothing expires or retires |
| `SharedRetention.SharedBinlogsExactly` | mysql-wrapper/src/pitr.rs:1283-1342 | by the fields of the listing: a binlog is named if and only if every full was read and the oldest kept full has a larger sequence in its own lineage, or was taken after the upload in another |
| `SharedRetention.SharedFullsExactly` | mysql-wrapper/src/pitr.rs:1283-1318 | and a full's object if and only if every full was read and the full is outside the window |
| `SharedRetention.SharedOrphansExactly` | mysql-wrapper/src/pitr.rs:1237-1250 | and an orphan dump if and only if it was seen more than six hours ago, whatever could be read |
| `SharedArchive.SweepKeepsInv` | mysql-wrapper/src/pitr.rs:1237-1373 | a pass plans only fulls that a newer one stands in for and files that a surviving full's dump already shows |
| `SharedArchive.StepKeepsInv` | mysql-wrapper/src/pitr.rs:1200-1373 | so do uploads, landing fulls and deletions, in any interleaving |
| `SharedArchive.RetentionIsInvisible` | mysql-wrapper/src/pitr.rs:1200-1373 | in every run, for every target at or past the latest cutoff, the full selected and the transactions delivered are those of a never-swept archive |
| `SharedAcceptance.AcceptanceIsUnchanged` | mysql-wrapper/src/restore.rs:1189-1413 | in every such run the restore from the full selected can read all it fetches on the never-swept archive if and only if it can on the swept one and the deleted files in scope were readable; it then ends with the same executed set and completeness verdict, and, no two dumps overlapping, reaches the same point and is accepted on one exactly when on the other |
| `SharedAcceptance.ReadableExactly` | mysql-wrapper/src/restore.rs:1257-1320 | a restore can read all it fetches exactly when every file in scope is readable |
| `SharedAcceptance.GoneIsLoaded` | mysql-wrapper/src/pitr.rs:1322-1342 | the selected dump brings everything a deleted file carried and everything it vouched for |
| `SharedAcceptance.ReachedFromTheScope` | mysql-wrapper/src/restore.rs:1257-1325 | the point reached is where the dump was named or the latest end of any file in scope, however the files are cut into runs |
| `SharedRestore.QueueRuns` | mysql-wrapper/src/restore.rs:1214-1244 | the queue is the specified one |
| `SharedRestore.PushRunsPastGap` | mysql-wrapper/src/restore.rs:1145-1165 | every run past a gap is queued, one round per hole |
| `SharedRestore.OwnLineageReplaysFirst` | mysql-wrapper/src/restore.rs:1091-1102 | rounds never decrease and the selected full's own run is first |
| `SharedRestore.RunsCoverTheScope` | mysql-wrapper/src/restore.rs:1214-1244 | gaps or none, the queue covers exactly the own lineage from the coordinate and every archived file of the others |
| `SharedRestore.ReplaySharedHistory` | mysql-wrapper/src/restore.rs:1189-1413 | each outcome is reached exactly under its condition: an unreadable head, a hole, an incomplete dump, a target out of reach, or acceptance; with the dump loaded and no hole, the target is out of reach if and only if the point reached is two rotation intervals, a minute and a second or more short of it |
| `SharedRestore.RestoredSetExactly` | mysql-wrapper/src/restore.rs:1434-1442 | by the fields of the events: the restored set is the dump's transactions and those of exactly the events of files in scope that lie before the target's second and, in the coordinate file, at or past the dump's position |
| `SharedRestore.WithinBoundExactly` | mysql-wrapper/src/pitr.rs:361-377 | the last gate in arithmetic, saturation included |
| `SharedRestore.AcceptanceMissesNothing` | mysql-wrapper/src/restore.rs:1321-1386 | an accepted restore holds, for every archived file in scope opened before the target's second, everything its server had executed by then, lost files included |
| `SharedRestore.RefusedExactlyWhenLost` | mysql-wrapper/src/restore.rs:1321-1386 | the hole check refuses if and only if some transaction is vouched for that neither the dump nor any file in scope delivers |
| `SharedRestore.RefusedByTheFields` | mysql-wrapper/src/restore.rs:1321-1386 | the same by the fields: some file opened before the target's second names a transaction that neither the dump nor any event in scope brings |
| `SharedRestore.RestoredSetIsTheArchives` | mysql-wrapper/src/restore.rs:1167-1188 | however the listing overlaps, the restored set holds nothing that neither the dump nor a file in scope has before the target's second, and everything the files other than the coordinate file have |
| `SharedRestore.OnlyTheCoordinateFileIsCut` | mysql-wrapper/src/restore.rs:1088-1096 | a start position applies to the coordinate file of the selected full and to no other |
| `SharedRestore.CuttingAtTheGapAcceptsALoss` | mysql-wrapper/src/restore.rs:1181-1188 | without the runs past a gap a lossy restore would be accepted |
| `LineageRestore.ReplayBinlogs` | mysql-wrapper/src/restore.rs:961-1042 | the independent replay ends in each outcome exactly under its condition, the last in arithmetic: readable and past no blocking gap, it ends short if and only if the point reached is two rotation intervals, a minute and a second or more short of the target |
| `LineageRestore.ServedSetExactly` | mysql-wrapper/src/restore.rs:1434-1442 | by the fields of the events: what is served is the dump and exactly the events of the run before the target's second and, in the coordinate file, at or past the dump's position |
| `LineageRestore.ReachedFromTheRun` | mysql-wrapper/src/restore.rs:1018-1042 | the point reached is the end of the file of the highest sequence replayed, or the target if that is earlier; with nothing replayed, the dump's instant |
| `LineageRestore.ServedMissesNothing` | mysql-wrapper/src/restore.rs:1018-1051 | a served restore misses no event before the target's second of any file, archived or lost, that an archived file follows |
| `PurgeRules.PurgeCutIsExact` | mysql-wrapper/src/pitr.rs:692-709 | the standalone cut reclaims the largest prefix free of the active file and of files neither uploaded nor lost |
| `PurgeRules.GroupCutIsExact` | mysql-wrapper/src/pitr.rs:727-752 | the group cut reclaims the largest prefix its stricter rule allows |
| `PurgeRules.GroupCutIsNoDeeper` | mysql-wrapper/src/pitr.rs:720-752 | the group cut never reclaims a file the standalone cut keeps |
| `Shipping.Archiver.ShipOnce` | mysql-wrapper/src/archiver.rs:1583-1738 | cut short anywhere or complete, every closed binlog stays in the bucket (or was taken out of it by someone else), recorded lost or indexed; nothing leaves the bucket; what is removed from disk is in the bucket, was recorded lost, or was recorded uploaded and vanished from the bucket, and is old enough for its mode; when complete nothing is unaccounted for |
| `Shipping.Archiver.ShipClosed` | mysql-wrapper/src/archiver.rs:1603-1650 | the loop records lost only what is gone and never uploaded, and uploaded only what is in the bucket |
| `Shipping.Archiver.ReclaimIfAllowed` | mysql-wrapper/src/archiver.rs:1663-1735 | with no lock and not cut short, the oldest file left is one that may not be reclaimed |
| `Shipping.Archiver.Reclaim` | mysql-wrapper/src/archiver.rs:1663-1724 | a purge removes exactly the files before the mode's cut, each recorded lost, or recorded uploaded and in the bucket unless someone took it out, and stops at one that may not go |
| `Shipping.Archiver.ReconcileUploadState` | mysql-wrapper/src/archiver.rs:1978-2006 | an upload is forgotten exactly when the bucket denies it |
| `Shipping.Archiver.Rotate` | mysql-wrapper/src/archiver.rs:1603-1609 | closing a file keeps everything conserved |
| `Shipping.RunAll` | mysql-wrapper/src/archiver.rs:1583-1738 | over any run of rotations, removals, bucket losses, anchorings, restarts and passes cut short anywhere, every binlog ever closed is in the bucket, recorded lost or still indexed, except what the run itself took out of the bucket |
| `Shipping.CloseThenShip` | mysql-wrapper/src/archiver.rs:1583-1650 | from a new volume, a closed file is in the bucket once a pass completes |
| `GapAnchor.ClearFlagMeansAnchored` | mysql-wrapper/src/archiver.rs:797-828 | in every run, unless an anchoring dump landed over a late loss, a clear flag means every recorded loss lies below some landed coordinate |
| `GapAnchor.LandingKeepsThePromiseExactly` | mysql-wrapper/src/archiver.rs:1959-1972 | an anchoring landing keeps that promise if and only if every loss recorded while it dumped lies below a landed coordinate |
| `GapAnchor.StepKeepsInv` | mysql-wrapper/src/archiver.rs:1611-1661 | every other step keeps it, crashes and failed dumps included |
| `GapAnchor.SecondLossIsForgotten` | mysql-wrapper/src/archiver.rs:1963-1972 | one run from the initial state: a loss, its anchoring full, a second loss while it dumps; the landing clears the flag and nothing covers the second loss |
| `BackupLatch.LatchIsExact` | mysql-wrapper/src/archiver.rs:220-314 | in every interleaving of any number of archiver tasks at most one run lives, the latch reads running exactly while one does, and an accepted request is in exactly one place |
| `BackupLatch.QueuedLeavesTwoWays` | mysql-wrapper/src/archiver.rs:247-292 | a queued request is taken by a run of its own or discarded by a stop when no archiver is left |
| `BackupLatch.StepKeepsInv` | mysql-wrapper/src/archiver.rs:220-398 | every atomic step keeps the accounting |
| `BackupLatch.LateDropErasesRequest` | mysql-wrapper/src/archiver.rs:384-398 | stopping without awaiting the aborted task lets its late drop erase an accepted request |
| `BackupLatch.NotAwaitingAllowsTwoRuns` | mysql-wrapper/src/archiver.rs:384-398 | and lets a restarted archiver begin a second run beside the first |
| `BackupLatch.PitrStatus.QueueFullBackup` | mysql-wrapper/src/archiver.rs:220-244 | accepted exactly when archiving and idle |
| `BackupLatch.PitrStatus.BeginRequestedFullBackup` | mysql-wrapper/src/archiver.rs:247-264 | takes the queued request and its reason, or nothing |
| `BackupLatch.PitrStatus.BeginScheduledFullBackup` | mysql-wrapper/src/archiver.rs:266-276 | begins exactly when idle, and touches no request |
| `BackupLatch.PitrStatus.DropFullBackupRun` | mysql-wrapper/src/archiver.rs:308-314 | releases the latch and touches no request |
| `BackupLatch.PitrStatus.StopArchiving` | mysql-wrapper/src/archiver.rs:282-292 | discards exactly the queued request |
| `RestoreBoot.Volume.Boot` | mysql-wrapper/src/main.rs:127-186 | killed anywhere, a boot serves exactly the content its marker, directory and configuration call for: a whole restore under a completed marker, or what had served before, never part of a restore or an empty database in its place; it wipes a served database exactly when its marker has rotted, gives up exactly at the cap, adds at most one to the count, and left alone serves |
| `RestoreBoot.Volume.Attempt` | mysql-wrapper/src/restore.rs:445-480 | an attempt serves nothing, leaves a completed marker only over a whole restore, and writes at most one new count |
| `RestoreBoot.Volume.ResetPartialRestore` | mysql-wrapper/src/restore.rs:335-362 | the wipe keeps marker and lock, and killed half-way still reads as crashed |
| `RestoreBoot.Volume.EndAttempt` | mysql-wrapper/src/restore.rs:463-480 | a verdict that is recorded carries the attempt's own number |
| `RestoreBoot.RunAll` | mysql-wrapper/src/main.rs:127-186 | over any run of boots, kills, marker decays and changes of configuration no boot serves part of a restore or nothing where a restore was asked for; what one served every later one serves again unless the marker rotted between; only a rotted marker ever loses a served database; attempts stay within three for every time it rotted, and three more |
| `RestoreBoot.KillThenRetry` | mysql-wrapper/src/main.rs:127-186 | after a restore killed anywhere, the next boot left alone serves the whole restore, or the database the first got as far as serving |
| `BinlogHead.SetRoundTrips` | mysql-wrapper/src/pitr.rs:586-628 | decoding inverts the encoding of every well-formed set, whatever follows it |
| `BinlogHead.TextReadsBack` | mysql-wrapper/src/pitr.rs:600-640 | the reported text, read most significant digit first with ranges inclusive, is the set: every byte of every UUID and every interval |
| `BinlogHead.TextDeterminesSet` | mysql-wrapper/src/pitr.rs:600-640 | two sets reported as one text are one set |
| `BinlogHead.DecodeGtidSet` | mysql-wrapper/src/pitr.rs:591-628 | the cursor loops yield a text that reads back as the set the bytes hold, or refuse exactly when the encoding is cut, tagged or holds an empty interval |
| `BinlogHead.SeekPreviousGtids` | mysql-wrapper/src/pitr.rs:547-583 | the event loop finds the payload and creation time the specification finds |
| `BinlogHead.ParseBinlogHead` | mysql-wrapper/src/pitr.rs:540-583 | the parser computes the specified head, and its text reads back as the set of the payload found |
| `BinlogHead.HeadRoundTrips` | mysql-wrapper/src/pitr.rs:540-583 | parsing what a server wrote, with anything after it, gives back its opening time and set, exactly when the set comes within four events |
| `BinlogHead.HeadReadsBack` | mysql-wrapper/src/pitr.rs:540-640 | and the text parsed reads back as the set the server wrote |
| `BinlogHead.HeadDeterminesSet` | mysql-wrapper/src/pitr.rs:503-514 | heads that parse alike were written with one set |
| `BinlogHead.EveryCutIsRefused` | mysql-wrapper/src/pitr.rs:534-539 | a head cut anywhere before the end of its Previous_gtids event is an error |

## Left out

- SQL, S3, Docker, DNS and process I/O: they appear as parameters, as steps, or as the points where a pass may be cut short.
- MySQL's own consensus, appliers, election, clone, dump and replay: the model has a totally ordered group log applied in order and a server that applies each GTID once.
- Stop at the target's second is a filter on event times; mysqlbinlog stops reading at the first event past it.
- `mysql` or `mysqlbinlog` failing during a replay, and a download that fails for a reason other than the object: those end the restore with an error and serve nothing.
- A live member expelled by a partition, in a group of any size: a view loses only members that crashed or left, so every member that is live is still in its group's view.
- A full landing is one step: an orphan dump whose meta would land after the six-hour grace is not modelled.
- Host-name comparison (case, ports) and the seed list's parsing: a host is its position in the list.
- Two histories that forked past a waiver at equal generations fall to seed order (`WaiverIdentity.MutualWaiversTieExactly`); nothing is proved about what is kept then.
- Re-formation by a lone survivor beside waivers: `waiver_identity.dfy` leaves it to `group_protocol.dfy`, where nobody is waived. An operator's fixed group name is not modelled.
- Rotation, removal or a landing full while a shipping pass runs: each pass of `shipping.dfy` is uninterrupted except for being cut short; `gap_anchor.dfy` interleaves them for the flag.
- `Shipping.Archiver.ReconcileUploadState`: an answer is taken to be truthful at that instant.
- The read-modify-write of the state file by the landing of a full is one step beside the shipping pass's writes.
- The allocation a corrupted SID count asks for before the decoder reads on.
- Retry pacing, telemetry, log notes, error texts, HTTP, HAProxy, configuration parsing and rendering: straight-line effects.
- Archive ownership, the reclaim-deferral watch, finishing upgrades, password pins and demotion on shutdown: small decision tables that would add only easy members.

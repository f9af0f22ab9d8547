# Verified model of EduWork DataBridge

EduWork DataBridge reconciles learning and workforce records: it matches identities, sends
doubtful cases to reviewers, runs dependent data assets incrementally, and keeps lineage.
This project models the algorithms behind that in Dafny and proves what they promise.

| files | what they model |
|---|---|
| `Keys`, `Partitions`, `UnionFind`, `Collections`, `Records` | record keys and their order, partitions and connectivity, the union-find forest, grouping and sorting, rule keys |
| `Probabilistic`, `Blocking` | candidate generation and the clustering loop of the probabilistic matcher |
| `Composite`, `Deterministic`, `RulePriority`, `UndoneConflict` | the two phases of the deterministic matcher, the order of its rules, and when a recorded conflict is final |
| `Ledger`, `Review`, `Desk`, `Migrations` | review decisions as one atomic ledger, the interleaved transactions that refine it, one service call, and the migrations that number old rows |
| `Orchestrator` | dependency execution with memoisation, retries and the run log |
| `Lineage`, `RateLimiter`, `ReviewQueue`, `Values`, `Validation`, `Mapping` | tracing, the sliding window, queue paging, and the two batch engines |

Code that updates state in loops is modelled by methods and classes and proved against
specification functions on values; the properties of whole runs are lemmas about those.

Three statements one might expect of the code are false, and are replaced by the exact condition
under which they hold:

- A pair recorded as a deterministic conflict may still end in one cluster, because trusted keys
  of different rules are compared as bare tuples (`UndoneConflict.ConflictAndTogether`); conflicts
  are final for every list of links exactly when sharing is transitive (`Composite.ExclusiveIffSharingTransitive`).
- A repeated asset run may compute again, because a skipped dependency hands on only the metadata
  keys that are stored (`Orchestrator.LeakyRepeatComputes`). A call computes nothing exactly when
  its dependency tree is on record under the stored outputs (`Orchestrator.SkipsIffOnRecord`); for
  a repeat whose dependencies are on record, exactly when a success under their stored outputs is
  (`Orchestrator.RepeatSkipsIff`).
- `blocking_failures` counts by rule identifier, which nothing makes unique, so it can exceed the
  issues of blocking rules (`Validation.SharedIdentifierOvercounts`,
  `Validation.BlockingCountExactIff`).

Check the project with `dafny verify dfyconfig.toml`.

## Model

| member | source | states |
|---|---|---|
| `Forests.UnionFind.constructor` | `packages/eduwork_databridge/eduwork_databridge/matching/deterministic.py:40-41` | every key starts as its own cluster |
| `Forests.UnionFind.Find` | `packages/eduwork_databridge/eduwork_databridge/matching/deterministic.py:43-47` | returns the representative of the key's cluster, compresses the path and leaves every cluster as it was; terminates because parents strictly decrease |
| `Forests.UnionFind.Union` | `packages/eduwork_databridge/eduwork_databridge/matching/deterministic.py:49-55` | the partition afterwards is the old one with the two clusters joined, represented by the least key |
| `Forests.Root` | `packages/eduwork_databridge/eduwork_databridge/matching/deterministic.py:43-47` | parent chains end, at a root that is at most the key |
| `Forests.CompressKeepsPartition` | `packages/eduwork_databridge/eduwork_databridge/matching/deterministic.py:45-47` | pointing a key at its root changes no cluster |
| `Forests.LinkIsMerge` | `packages/eduwork_databridge/eduwork_databridge/matching/deterministic.py:53-55` | hanging the larger root below the smaller is exactly the merge of the two clusters |
| `Forests.RepresentedValid` | `packages/eduwork_databridge/eduwork_databridge/matching/deterministic.py:39-55` | whatever a forest represents is a partition whose representatives are least |
| `Partitions.MergeValid` | `packages/eduwork_databridge/eduwork_databridge/matching/deterministic.py:49-55` | a merge keeps every representative its own least member |
| `Partitions.MergeDropsOneRoot` | `packages/eduwork_databridge/eduwork_databridge/matching/deterministic.py:53-55` | a merge of two clusters leaves exactly one cluster fewer |
| `Partitions.ExplainsMerge` | `packages/eduwork_databridge/eduwork_databridge/matching/deterministic.py:49-55` | one more link explains one more merge: clusters stay exactly the connected components of the links |
| `Partitions.SameClustersSamePartition` | `packages/eduwork_databridge/eduwork_databridge/matching/deterministic.py:53-55` | least representatives make the partition a function of the clusters alone |
| `Partitions.SizesSumToTotal` | `packages/eduwork_databridge/eduwork_databridge/matching/probabilistic.py:239-264` | cluster sizes over all roots sum to the number of records |
| `Deterministic.MergeAllExplained` | `packages/eduwork_databridge/eduwork_databridge/matching/deterministic.py:39-55` | after any sequence of unions two keys have one root exactly when the unions connect them |
| `Probabilistic.AfterInvariant` | `packages/eduwork_databridge/eduwork_databridge/matching/probabilistic.py:240-264` | at every step no cluster carries two different trusted IDs, so a blank ID never bridges two |
| `Probabilistic.CachesMerge` | `packages/eduwork_databridge/eduwork_databridge/matching/probabilistic.py:258-264` | updating only the winner's entries keeps both caches exact at every root |
| `Probabilistic.StatusIsFinal` | `packages/eduwork_databridge/eduwork_databridge/matching/probabilistic.py:240-256` | the status decided in the middle of the loop is the one the final clusters give |
| `Probabilistic.MergedOrConflict` | `packages/eduwork_databridge/eduwork_databridge/matching/probabilistic.py:244-264` | every pair at or above auto_match is in one final cluster or a conflict, never both |
| `Probabilistic.ImpactIsFinal` | `packages/eduwork_databridge/eduwork_databridge/matching/probabilistic.py:258-285` | a candidate below auto_match reports the sizes of the two final clusters |
| `Probabilistic.MergedSizeIsReached` | `packages/eduwork_databridge/eduwork_databridge/matching/probabilistic.py:258-264` | an automatic match reports as merged size the size of the cluster it leaves behind |
| `Probabilistic.AutoMatchesExplain` | `packages/eduwork_databridge/eduwork_databridge/matching/probabilistic.py:240-264` | the clusters are exactly the components of the pairs reported as automatic matches |
| `Probabilistic.ComponentsExactlyWhenAgreeing` | `packages/eduwork_databridge/eduwork_databridge/matching/probabilistic.py:240-264` | the final clusters are the components of all pairs at or above auto_match if and only if no component holds two different IDs |
| `Probabilistic.OrderIrrelevantWhenAgreeing` | `packages/eduwork_databridge/eduwork_databridge/matching/probabilistic.py:240-264` | then the result does not depend on the order of ties, or on the order at all |
| `Probabilistic.RaisingThresholdRefines` | `packages/eduwork_databridge/eduwork_databridge/matching/probabilistic.py:240-264` | a higher auto_match only splits final clusters |
| `Probabilistic.LoweringThresholdKeepsConflicts` | `packages/eduwork_databridge/eduwork_databridge/matching/probabilistic.py:240-256` | a lower auto_match never lifts a conflict |
| `Collections.SortStable` | `packages/eduwork_databridge/eduwork_databridge/matching/probabilistic.py:240-242` | candidates of equal probability keep the order in which they were scored |
| `Probabilistic.Consider` | `packages/eduwork_databridge/eduwork_databridge/matching/probabilistic.py:243-264` | one pass of the loop body on forest and caches is one step of the specification, and the caches stay exact |
| `Probabilistic.RunInOrder` | `packages/eduwork_databridge/eduwork_databridge/matching/probabilistic.py:231-285` | the loop reports every candidate with the status and impact of the specification |
| `Probabilistic.Run` | `packages/eduwork_databridge/eduwork_databridge/matching/probabilistic.py:231-285` | the same after the descending sort, with every status determined by the final clusters |
| `Blocking.TallyExactly` | `packages/eduwork_databridge/eduwork_databridge/matching/probabilistic.py:75-89` | the rule list of a pair is exactly the rules under which both records have the same usable key, in rule order |
| `Blocking.TallyPairs` | `packages/eduwork_databridge/eduwork_databridge/matching/probabilistic.py:75-89` | the candidate pairs are exactly the pairs that share a usable key under some rule, lesser key first |
| `Blocking.Insert` | `packages/eduwork_databridge/eduwork_databridge/matching/probabilistic.py:84-90` | the insertion loop fails exactly when all the links together make more distinct pairs than the limit, although it stops early |
| `Blocking.Generate` | `packages/eduwork_databridge/eduwork_databridge/matching/probabilistic.py:62-90` | each error occurs exactly when its condition holds, and on success pairs and rule lists are exact |
| `Blocking.RunMatcher` | `packages/eduwork_databridge/eduwork_databridge/matching/probabilistic.py:194-291` | a whole run is rejected exactly when candidate generation is; otherwise every blocked pair has one result with its score, in descending order, with a status that its score allows and the final clusters give; records with different employee IDs are reported as conflicts and never joined by automatic matches |
| `Blocking.IdsOfRecordsAt` | `packages/eduwork_databridge/eduwork_databridge/matching/probabilistic.py:232-238` | the trusted ID of a record is its employee_id |
| `Blocking.KeptApart` | `packages/eduwork_databridge/eduwork_databridge/matching/probabilistic.py:231-264` | pairs of different employees are conflicts, and no chain of automatic matches joins two of them |
| `Records.KeyUnder` | `packages/eduwork_databridge/eduwork_databridge/matching/deterministic.py:59-69` | a record has a key exactly when some value is present and, if all are required, all are |
| `Records.SortedGroups` | `packages/eduwork_databridge/eduwork_databridge/matching/deterministic.py:108-115` | grouping and sorting give the members of every group, groups in order of first appearance |
| `Deterministic.Admit` | `packages/eduwork_databridge/eduwork_databridge/matching/deterministic.py:83-97` | accepted exactly when keys and organization are present, keys unique and one organization; otherwise the first defective record decides, and organizations come last |
| `Deterministic.TrustedPhaseExact` | `packages/eduwork_databridge/eduwork_databridge/matching/deterministic.py:108-127` | the trusted phase clusters exactly the records connected through equal keys of some trusted rule |
| `Deterministic.TrustedPhaseOrderFree` | `packages/eduwork_databridge/eduwork_databridge/matching/deterministic.py:108-127` | the trusted-phase partition does not depend on the order of records or rules |
| `Deterministic.LinkAgrees` | `packages/eduwork_databridge/eduwork_databridge/matching/deterministic.py:108-173` | a rule links only records that agree on its key |
| `Deterministic.AgreeingPairProposed` | `packages/eduwork_databridge/eduwork_databridge/matching/deterministic.py:140-148` | a composite rule considers every pair that agrees on its key |
| `Deterministic.AgreeingPairSettled` | `packages/eduwork_databridge/eduwork_databridge/matching/deterministic.py:140-173` | every pair that agrees on a composite rule ends in one cluster or is a recorded conflict of that rule, for all rules |
| `Deterministic.AgreeingPairExclusive` | `packages/eduwork_databridge/eduwork_databridge/matching/deterministic.py:129-173` | exactly one of the two when sharing of trusted keys between trusted-phase clusters is transitive |
| `Deterministic.ExclusiveWithoutSharedTuples` | `packages/eduwork_databridge/eduwork_databridge/matching/deterministic.py:129-173` | in particular when no key tuple is shared between two trusted rules |
| `Deterministic.NoSharedTupleSeparates` | `packages/eduwork_databridge/eduwork_databridge/matching/deterministic.py:129-138` | then different trusted-phase clusters have no trusted key in common |
| `Deterministic.OneTrustedIdentityPerCluster` | `packages/eduwork_databridge/eduwork_databridge/matching/deterministic.py:140-173` | then every final cluster holds at most one trusted-phase cluster that carries keys |
| `Deterministic.LinksExplainClusters` | `packages/eduwork_databridge/eduwork_databridge/matching/deterministic.py:108-190` | two records share a final cluster exactly when the links connect them, and clusters lost since the trusted phase equal composite links |
| `Composite.EveryLinkSettled` | `packages/eduwork_databridge/eduwork_databridge/matching/deterministic.py:140-173` | after any prefix of the loop every link considered is inside a cluster or a conflict |
| `Composite.LinksExplain` | `packages/eduwork_databridge/eduwork_databridge/matching/deterministic.py:140-173` | base links plus composite links explain the clusters at every step |
| `Composite.LinksCount` | `packages/eduwork_databridge/eduwork_databridge/matching/deterministic.py:140-173` | each composite link removes exactly one cluster: they form a forest |
| `Composite.TransitiveExclusive` | `packages/eduwork_databridge/eduwork_databridge/matching/deterministic.py:149-173` | when sharing of trusted keys is transitive, no later merge undoes a conflict |
| `Composite.ChainUndoesConflict` | `packages/eduwork_databridge/eduwork_databridge/matching/deterministic.py:149-173` | when it is not, three links undo one |
| `Composite.ExclusiveIffSharingTransitive` | `packages/eduwork_databridge/eduwork_databridge/matching/deterministic.py:149-173` | conflicts are final for every list of links if and only if sharing between trusted-phase clusters is transitive |
| `Composite.OneCarrierIffSeparated` | `packages/eduwork_databridge/eduwork_databridge/matching/deterministic.py:149-173` | no list of links joins two carrying clusters if and only if different clusters share no key |
| `UndoneConflict.ChainOfRecordsUndoesConflict` | `packages/eduwork_databridge/eduwork_databridge/matching/deterministic.py:129-173` | the failing family on records and rules: a conflict is reported for two records that end in one cluster |
| `UndoneConflict.ConflictAndTogether` | `packages/eduwork_databridge/eduwork_databridge/matching/deterministic.py:129-173` | one such input: three records, two trusted and two composite rules |
| `UndoneConflict.SharingNeverConflicts` | `packages/eduwork_databridge/eduwork_databridge/matching/deterministic.py:152-171` | a link between clusters that share a trusted key is never recorded as a conflict |
| `Deterministic.TrustedPhase` | `packages/eduwork_databridge/eduwork_databridge/matching/deterministic.py:108-127` | the nested loops leave exactly the links and the partition of the specification |
| `Deterministic.ClusterValues` | `packages/eduwork_databridge/eduwork_databridge/matching/deterministic.py:129-138` | collects exactly the trusted keys of the members of a cluster, compressing paths on the way |
| `Deterministic.Consider` | `packages/eduwork_databridge/eduwork_databridge/matching/deterministic.py:149-173` | one candidate pair: dropped, recorded as a conflict or merged, as the specification step says |
| `Deterministic.CompositePhase` | `packages/eduwork_databridge/eduwork_databridge/matching/deterministic.py:140-173` | the nested loops reach the state of the specification run over all candidate links in order |
| `Deterministic.CollectClusters` | `packages/eduwork_databridge/eduwork_databridge/matching/deterministic.py:175-190` | the reported cluster of a record is the set of records with its root |
| `Deterministic.MatchRecords` | `packages/eduwork_databridge/eduwork_databridge/matching/deterministic.py:78-190` | the whole call: errors, links, conflicts and clusters are those of the specification |
| `RulePriority.RulesAscend` | `packages/eduwork_databridge/eduwork_databridge/matching/deterministic.py:101-106` | both phases take their rules in ascending priority |
| `RulePriority.EqualPrioritiesKeepOrder` | `packages/eduwork_databridge/eduwork_databridge/matching/deterministic.py:101-106` | rules of equal priority keep the configured order |
| `RulePriority.LinkedUnderFirstRule` | `packages/eduwork_databridge/eduwork_databridge/matching/deterministic.py:140-173` | a composite link is reported under a rule on which its records agree, and every composite rule of smaller priority on which they agree has recorded their conflict |
| `Collections.SeenInOrder` | `packages/eduwork_databridge/eduwork_databridge/matching/deterministic.py:109-114` | groups are taken in the order in which their keys first appear |
| `Ledger.ApplyNumbered` | `packages/eduwork_databridge/eduwork_databridge/matching/service.py:160-198` | a decision keeps each row's entries numbered exactly 1 .. revision |
| `Ledger.ApplyCurrent` | `packages/eduwork_databridge/eduwork_databridge/validation/service.py:182-217` | a decision leaves the row showing its newest entry |
| `Ledger.ApplyClean` | `packages/eduwork_databridge/eduwork_databridge/validation/service.py:182-198` | resolved_at is empty exactly while attention is needed, and a waiver reason is present exactly on waived records |
| `Ledger.ApplyChained` | `packages/eduwork_databridge/eduwork_databridge/matching/service.py:178-198` | each decision supersedes the one before it |
| `Ledger.ApplyAudit` | `packages/eduwork_databridge/eduwork_databridge/main.py:831-847` | audit events and API entries correspond one to one |
| `Ledger.LedgerInvariant` | `packages/eduwork_databridge/eduwork_databridge/matching/service.py:143-204` | all of these over every sequence of decisions and new rows |
| `Ledger.RowStaysCurrent` | `packages/eduwork_databridge/eduwork_databridge/validation/service.py:182-217` | row by row: a row created or shown correctly at the start goes on showing its newest entry |
| `Ledger.RowFollowsEntry` | `packages/eduwork_databridge/eduwork_databridge/validation/service.py:182-198` | over every run, a record whose newest entry was recorded by a reviewer holds its note as waiver reason exactly when waived, and its time as time of resolution exactly when it closes the record |
| `Ledger.RowKeepsIdentity` | `packages/eduwork_databridge/eduwork_databridge/matching/service.py:160-172` | rows never change organization, and decisions leave the rest of a candidate alone |
| `Ledger.EntriesAreProper` | `packages/eduwork_databridge/eduwork_databridge/matching/service.py:154-159` | every entry written has a status its desk knows, a note and a reviewer |
| `Ledger.LedgerGrows` | `packages/eduwork_databridge/eduwork_databridge/matching/service.py:189-198` | history and audit are append-only and revisions never fall |
| `Ledger.EntriesComeFromDecisions` | `packages/eduwork_databridge/eduwork_databridge/matching/service.py:189-198` | every entry was written by an accepted decision and repeats it |
| `Ledger.DecisionsAreRecorded` | `packages/eduwork_databridge/eduwork_databridge/matching/service.py:189-198` | every accepted decision is still in the history as written |
| `Ledger.OneWinnerPerRevision` | `packages/eduwork_databridge/eduwork_databridge/matching/service.py:160-177` | for each expected revision at most one writer ever succeeds |
| `Review.StepKeepsInv` | `packages/eduwork_databridge/eduwork_databridge/main.py:818-848` | every step of every session keeps the locks exclusive and the pending writes consistent with the committed rows |
| `Review.Serializable` | `packages/eduwork_databridge/eduwork_databridge/main.py:818-848` | every interleaving of sessions commits as a sequence of atomic decisions in commit order |
| `Review.EveryRunIsSound` | `packages/eduwork_databridge/eduwork_databridge/main.py:718-744` | from undecided rows, after every step: numbering 1 .. revision, rows show and follow their newest entry, decisions chained, audit exact |
| `Review.PriorIsExpected` | `packages/eduwork_databridge/eduwork_databridge/matching/service.py:178-188` | under the row lock the newest entry found is the one at the expected revision |
| `Review.OneCommitPerRevision` | `packages/eduwork_databridge/eduwork_databridge/matching/service.py:160-177` | two commits on one row never expected the same revision |
| `Review.StaleWriterLeavesNoTrace` | `packages/eduwork_databridge/eduwork_databridge/matching/service.py:173-177` | in every run, a session whose update found a stale revision changes neither database nor log and takes no step until it begins anew |
| `Review.OnlyCommitsChange` | `packages/eduwork_databridge/eduwork_databridge/main.py:828-847` | in every run, only a commit or a new row alters the database |
| `Review.LockHolderCanCommit` | `packages/eduwork_databridge/eduwork_databridge/matching/service.py:160-204` | in every reachable state whoever holds a row lock can go on alone to its commit, which is the atomic decision |
| `Review.ConstraintNeverFires` | `packages/eduwork_databridge/eduwork_databridge/matching/service.py:189-198` | the unique constraint on (row, revision) is never what stops a session |
| `Review.OwnEntryIsNewest` | `packages/eduwork_databridge/eduwork_databridge/main.py:741-742` | inside its transaction history(limit=1) returns the entry the handler just wrote |
| `Review.UncontendedDecisionCommits` | `packages/eduwork_databridge/eduwork_databridge/matching/service.py:160-204` | a current request on an unlocked row can always run through to its commit |
| `Desk.NewestEntry` | `packages/eduwork_databridge/eduwork_databridge/matching/service.py:178-188` | the search for the prior entry finds the greatest revision of the row in its organization, or nothing |
| `Desk.ReviewService.Record` | `packages/eduwork_databridge/eduwork_databridge/validation/service.py:162-225` | each refusal has its exact condition in the order of the checks and changes nothing; otherwise the call is the atomic decision, and entry and row hold what the request said |
| `Desk.ReviewService.Advance` | `packages/eduwork_databridge/eduwork_databridge/matching/service.py:160-198` | update, search, append and audit together are the atomic decision |
| `Migrations.RanksGapFree` | `migrations/versions/20261007_0005_match_review_revisions.py:26-38` | the ranks by (decided_at, id) of a candidate's n decisions are exactly 1 .. n |
| `Migrations.Upgrade5` | `migrations/versions/20261007_0005_match_review_revisions.py:25-46` | every decision is filed under its rank and every candidate gets its count |
| `Migrations.Upgrade5Numbers` | `migrations/versions/20261007_0005_match_review_revisions.py:25-46` | afterwards the numbering that the review protocol needs holds |
| `Migrations.Upgrade5Chronological` | `migrations/versions/20261007_0005_match_review_revisions.py:26-38` | later revisions hold later decisions, and the identifier decides between equal times |
| `Migrations.Upgrade5KeepsDecisions` | `migrations/versions/20261007_0005_match_review_revisions.py:26-38` | every decision is filed whole under its candidate |
| `Migrations.Upgrade6Numbers` | `migrations/versions/20261018_0006_exception_desk.py:36-50` | afterwards each record has revision 1 with one imported entry, or revision 0 with none |
| `Migrations.Upgrade6Imports` | `migrations/versions/20261018_0006_exception_desk.py:37-50` | a record whose note holds a character other than a space has revision 1 and one imported entry with its note, status, reviewer and time; any other has none |
| `Migrations.Upgrade6Current` | `migrations/versions/20261018_0006_exception_desk.py:37-50` | an imported entry says what its record shows |
| `Migrations.UpgradesCompose` | `migrations/versions/20261018_0006_exception_desk.py:36-50` | 0005 followed by 0006 numbers both desks |
| `Migrations.MigratedRunsStayNumbered` | `migrations/versions/20261018_0006_exception_desk.py:36-50` | every interleaving of reviews after the upgrade is serializable and keeps the numbering |
| `Migrations.MigratedRowsStayCurrent` | `migrations/versions/20261018_0006_exception_desk.py:36-50` | and every record of the exception desk, imported or new, shows its newest entry |
| `Migrations.DowngradeLosesNothing` | `migrations/versions/20261018_0006_exception_desk.py:53-60` | after any run since the upgrade, a downgrade that does not refuse is undone exactly by upgrading again |
| `Migrations.DowngradeDrops` | `migrations/versions/20261018_0006_exception_desk.py:56-60` | a downgrade drops the resolutions and revisions of the exception desk and nothing else |
| `Migrations.DowngradeRefusesExactly` | `migrations/versions/20261018_0006_exception_desk.py:53-55` | it refuses exactly when a resolution was recorded since |
| `Orchestrator.RunLegit` | `packages/eduwork_databridge/eduwork_databridge/orchestration/engine.py:98-217` | every row a call adds has ended, agrees with its hash and carries the backfill of the call; without one a success is never repeated and a skip names the newest one, with one nothing is skipped |
| `Orchestrator.MemoisedOnce` | `packages/eduwork_databridge/eduwork_databridge/orchestration/engine.py:118-152` | over any sequence of calls without backfill there is at most one success per organization, asset, partition and hash |
| `Orchestrator.SkipsIffOnRecord` | `packages/eduwork_databridge/eduwork_databridge/orchestration/engine.py:98-152` | for every acyclic graph and every log, a call computes nothing if and only if its whole dependency tree is on record, each asset under the hash of the stored outputs of its dependencies |
| `Orchestrator.SkipsIffHashOnRecord` | `packages/eduwork_databridge/eduwork_databridge/orchestration/engine.py:114-152` | one level of it: with the dependencies on record, the asset is skipped if and only if a success under the hash of their stored outputs is on record |
| `Orchestrator.RepeatSkipsIff` | `packages/eduwork_databridge/eduwork_databridge/orchestration/engine.py:98-152` | once the dependencies of a successful call are on record with the stored part of their outputs, its repeat computes nothing if and only if a success under the stored part of the dependencies' outputs is on record; if none was before, if and only if the dependencies returned only allowed keys |
| `Orchestrator.RepeatIsMemoised` | `packages/eduwork_databridge/eduwork_databridge/orchestration/engine.py:98-152` | when the dependencies within the call returned only allowed keys, the repeat computes nothing at any depth, logs only skips, returns the same hash and watermark, and the same output exactly when it had only allowed keys |
| `Orchestrator.SafeComputationsAreClean` | `packages/eduwork_databridge/eduwork_databridge/orchestration/engine.py:77-87` | that is so when the computations of all transitive dependencies return only allowed keys |
| `Orchestrator.RepeatWithSafeDependencies` | `packages/eduwork_databridge/eduwork_databridge/orchestration/engine.py:98-152` | so on any acyclic graph, diamonds included, whose computations return only allowed keys, a repeat computes nothing and returns the same output |
| `Orchestrator.ChainSkipsIffSafe` | `packages/eduwork_databridge/eduwork_databridge/orchestration/engine.py:98-152` | for two chained assets and any log without an earlier success under the stored output, the repeat computes nothing if and only if the first asset returned only allowed keys |
| `Orchestrator.ChainOnRecordAlwaysSkips` | `packages/eduwork_databridge/eduwork_databridge/orchestration/engine.py:98-152` | if the first asset was on record before, the repeat computes nothing whatever it returns |
| `Orchestrator.LeakyRepeatComputes` | `packages/eduwork_databridge/eduwork_databridge/orchestration/engine.py:98-152` | one system in which the repeat computes again |
| `Orchestrator.AttemptsShape` | `packages/eduwork_databridge/eduwork_databridge/orchestration/engine.py:154-217` | attempts are numbered 1 .. k with k at most max_attempts, all failed but the last one of a success; each row tells how its computation ended, and the result is what the last one returned |
| `Orchestrator.BackfillComputes` | `packages/eduwork_databridge/eduwork_databridge/orchestration/engine.py:129-199` | a backfill computes at every depth: no row it adds is a skip, every row names it, and it returns what the computation returned |
| `Orchestrator.CallIsJustified` | `packages/eduwork_databridge/eduwork_databridge/orchestration/engine.py:113-199` | what a call returns was computed from the base context and the outputs of its dependencies, or is stored under their hash |
| `Orchestrator.ErrorIsExplained` | `packages/eduwork_databridge/eduwork_databridge/orchestration/engine.py:98-217` | a failed call involves an asset that is not registered, or ends with the last failed attempt of one |
| `Orchestrator.HookCallsExactly` | `packages/eduwork_databridge/eduwork_databridge/orchestration/engine.py:213-214` | every hook is called once for a failure, with its asset and code |
| `Orchestrator.StoredExactly` | `packages/eduwork_databridge/eduwork_databridge/orchestration/engine.py:77-87` | which keys of an output are stored |
| `Orchestrator.DependenciesComeFirst` | `packages/eduwork_databridge/eduwork_databridge/orchestration/engine.py:98-113` | no row of an asset appears before all its dependencies ended in a success or a skip, recursively |
| `Orchestrator.SettledRun` | `packages/eduwork_databridge/eduwork_databridge/orchestration/engine.py:98-152` | an asset whose whole dependency tree is on record is answered by skips alone |
| `Orchestrator.RunSettles` | `packages/eduwork_databridge/eduwork_databridge/orchestration/engine.py:154-199` | a successful call whose dependencies returned only allowed keys puts its whole dependency tree on record |
| `Orchestrator.DependenciesSettle` | `packages/eduwork_databridge/eduwork_databridge/orchestration/engine.py:98-113` | after the dependencies of a call have run, each is on record with the stored part of its output |
| `Orchestrator.SkipsMeanSettled` | `packages/eduwork_databridge/eduwork_databridge/orchestration/engine.py:98-152` | a call answered by skips alone had its whole dependency tree on record |
| `Orchestrator.FindPrior` | `packages/eduwork_databridge/eduwork_databridge/orchestration/engine.py:118-128` | the prior run found is the newest success with the hash, or there is none |
| `Orchestrator.AssetOrchestrator.Register` | `packages/eduwork_databridge/eduwork_databridge/orchestration/engine.py:53-58` | duplicates and attempt limits outside 1 .. 10 are refused and change nothing, so every registered asset has a limit within 1 .. 10 |
| `Orchestrator.AssetOrchestrator.TryOnce` | `packages/eduwork_databridge/eduwork_databridge/orchestration/engine.py:154-214` | one attempt ends its running row and calls every hook once on failure |
| `Orchestrator.AssetOrchestrator.Retry` | `packages/eduwork_databridge/eduwork_databridge/orchestration/engine.py:154-217` | the retry loop is the recursive specification of the attempts |
| `Orchestrator.AssetOrchestrator.Gather` | `packages/eduwork_databridge/eduwork_databridge/orchestration/engine.py:102-112` | the dependencies run in order, and the first failure stops the rest |
| `Orchestrator.AssetOrchestrator.RunCall` | `packages/eduwork_databridge/eduwork_databridge/orchestration/engine.py:89-217` | the recursive call computes exactly the specified log and result, and the hook calls are those of the failed rows |
| `Lineage.Pass` | `packages/eduwork_databridge/eduwork_databridge/lineage/service.py:253-260` | one sweep adds only reachable nodes, reports a change exactly when it adds one, and otherwise leaves a closed set |
| `Lineage.Close` | `packages/eduwork_databridge/eduwork_databridge/lineage/service.py:246-260` | the loop ends with exactly the nodes connected to the seeds, for any edge order |
| `Lineage.Trace` | `packages/eduwork_databridge/eduwork_databridge/lineage/service.py:233-284` | the trace holds exactly the nodes connected to a node whose identifier or name is the starting point, and exactly the edges that touch them, in stored order |
| `Lineage.RecordingKeepsWellFormed` | `packages/eduwork_databridge/eduwork_databridge/lineage/service.py:27-203` | a recording creates no duplicate node or edge, and only edges between stored nodes that go up the layers |
| `Lineage.EveryRecordedGraph` | `packages/eduwork_databridge/eduwork_databridge/lineage/service.py:83-203` | over every sequence of recordings the graph is well formed and its edges are exactly those of the recordings |
| `Lineage.RecordersIdempotent` | `packages/eduwork_databridge/eduwork_databridge/lineage/service.py:83-203` | recording the same thing again changes nothing |
| `Lineage.PathsClimb` | `packages/eduwork_databridge/eduwork_databridge/lineage/service.py:83-203` | every path climbs at least one layer per edge |
| `Lineage.RecordedGraphAcyclic` | `packages/eduwork_databridge/eduwork_databridge/lineage/service.py:83-203` | the recorded graph has no cycle and no path of more than four nodes |
| `Lineage.ExportLeadsToRaw` | `packages/eduwork_databridge/eduwork_databridge/lineage/service.py:83-203` | a recorded export leads back through its mart and the versioned mapping to the raw snapshot, which leads to every mapped field |
| `Lineage.VertexNames` | `packages/eduwork_databridge/eduwork_databridge/lineage/service.py:98-112` | the names under which jobs and fields are found again |
| `Lineage.Recorder.RecordMapping` | `packages/eduwork_databridge/eduwork_databridge/lineage/service.py:83-129` | adds exactly the raw, job and field nodes and their edges to what was there, and returns the nodes in order |
| `Lineage.Recorder.RecordMart` | `packages/eduwork_databridge/eduwork_databridge/lineage/service.py:131-172` | adds exactly the mart below the mapping job, the raw snapshot or nothing, and returns the nodes in order |
| `Lineage.Recorder.RecordExport` | `packages/eduwork_databridge/eduwork_databridge/lineage/service.py:174-203` | adds exactly the export below the mart, and returns both nodes and the edge |
| `RateLimiter.EveryRunSpaced` | `packages/eduwork_databridge/eduwork_databridge/security/middleware.py:57-64` | over every run with a clock that does not go back, accepted requests `limit` places apart are at least a minute apart |
| `RateLimiter.WindowBound` | `packages/eduwork_databridge/eduwork_databridge/security/middleware.py:59-62` | so no half-open minute holds more than `limit` accepted requests |
| `RateLimiter.QueueIsRecent` | `packages/eduwork_databridge/eduwork_databridge/security/middleware.py:59-61` | after the drops the queue holds exactly the requests accepted less than a minute ago |
| `RateLimiter.Admit` | `packages/eduwork_databridge/eduwork_databridge/security/middleware.py:59-63` | a request is accepted exactly when fewer than `limit` were accepted less than a minute before it |
| `RateLimiter.Limiter.Dispatch` | `packages/eduwork_databridge/eduwork_databridge/security/middleware.py:50-64` | the same on the per-identity history, which other identities do not affect |
| `ReviewQueue.Joined` | `packages/eduwork_databridge/eduwork_databridge/validation/service.py:244-251` | exactly the records whose rule exists, each with its rule |
| `ReviewQueue.OrderedTotal` | `packages/eduwork_databridge/eduwork_databridge/validation/service.py:305-317` | each of the three sorts is a total order up to the identifier |
| `ReviewQueue.OldestFirst` | `packages/eduwork_databridge/eduwork_databridge/validation/service.py:305-306` | earlier records first, the identifier breaking ties |
| `ReviewQueue.NewestFirst` | `packages/eduwork_databridge/eduwork_databridge/validation/service.py:307-307` | later records first, the identifier breaking ties |
| `ReviewQueue.MostSevereFirst` | `packages/eduwork_databridge/eduwork_databridge/validation/service.py:308-317` | blocking before error before warning before the rest, then oldest first |
| `ReviewQueue.SelectedExactly` | `packages/eduwork_databridge/eduwork_databridge/validation/service.py:235-266` | a row is selected exactly when record and rule belong to the organization and pass every filter set |
| `ReviewQueue.PageExactly` | `packages/eduwork_databridge/eduwork_databridge/main.py:645-661` | a page counts all selected rows and shows those from its offset on, up to its limit |
| `ReviewQueue.QueriesAgree` | `packages/eduwork_databridge/eduwork_databridge/validation/service.py:297-321` | any list of the selected rows in the chosen order is the same list, so separate page queries cut one list |
| `ReviewQueue.ClampSound` | `packages/eduwork_databridge/eduwork_databridge/main.py:645-645` | the clamped offset is idempotent, never above the requested one, unchanged exactly up to the last page start and that start beyond it, and gives a non-empty page whenever there are rows |
| `ReviewQueue.WalkVisitsAll` | `packages/eduwork_databridge/eduwork_databridge/main.py:638-661` | walking offsets 0, limit, 2 * limit, ... visits every selected record exactly once in the chosen order |
| `ReviewQueue.SummaryAgreesIff` | `packages/eduwork_databridge/eduwork_databridge/validation/service.py:323-349` | the filtered count never exceeds needs_attention and equals it if and only if every waiting record failed a rule of its own organization |
| `ReviewQueue.ReachableOwnRules` | `packages/eduwork_databridge/eduwork_databridge/validation/service.py:90-141` | after any sequence of validations and resolutions every quarantined record failed a rule of its own organization, and identifiers are distinct |
| `ReviewQueue.ReachableCountsAgree` | `packages/eduwork_databridge/eduwork_databridge/validation/service.py:323-349` | so in every reachable queue the filtered count is the summary's needs_attention |
| `ReviewQueue.QuarantineRaisesAttention` | `packages/eduwork_databridge/eduwork_databridge/validation/service.py:127-141` | a quarantined record raises needs_attention of its organization by one |
| `Validation.UniqueFailures` | `packages/eduwork_databridge/eduwork_databridge/validation/engine.py:195-204` | the grouped check fails exactly the records whose not entirely blank tuple another record repeats |
| `Validation.CrossSourceFailures` | `packages/eduwork_databridge/eduwork_databridge/validation/engine.py:215-235` | the grouped check fails exactly the records in whose group two records hold different values of a compared field |
| `Validation.FailedIndices` | `packages/eduwork_databridge/eduwork_databridge/validation/engine.py:194-241` | whatever the rule type, the failed indices are those the pairwise definition names |
| `Validation.IssuesExactly` | `packages/eduwork_databridge/eduwork_databridge/validation/engine.py:242-244` | a record is reported under a rule exactly when it fails it |
| `Validation.IssuesAscending` | `packages/eduwork_databridge/eduwork_databridge/validation/engine.py:242-244` | records are reported in ascending order |
| `Validation.FailedCountsAddUp` | `packages/eduwork_databridge/eduwork_databridge/validation/engine.py:242-253` | failed counts over the rules add up to the number of issues |
| `Validation.CategoriesAddUp` | `packages/eduwork_databridge/eduwork_databridge/validation/engine.py:254-259` | failed counts over the dimensions add up to the same |
| `Validation.FailedWithinEvaluated` | `packages/eduwork_databridge/eduwork_databridge/validation/engine.py:254-269` | no dimension fails more than it evaluates |
| `Validation.RateInRange` | `packages/eduwork_databridge/eduwork_databridge/validation/engine.py:260-267` | pass rates times evaluated are the passed, lie in [0, 1] and are 1 exactly without failures |
| `Validation.DimensionMembers` | `packages/eduwork_databridge/eduwork_databridge/validation/engine.py:38-49` | which rule types make up each quality dimension |
| `Validation.BlockingCountExactIff` | `packages/eduwork_databridge/eduwork_databridge/validation/engine.py:270-271` | blocking_failures is never too small, and is the number of issues of blocking rules if and only if no failing rule that does not block shares its identifier with a blocking one |
| `Validation.SharedIdentifierOvercounts` | `packages/eduwork_databridge/eduwork_databridge/validation/engine.py:270-271` | two rules with one identifier for which a warning is counted as a blocking failure |
| `Validation.Validate` | `packages/eduwork_databridge/eduwork_databridge/validation/engine.py:184-277` | the whole run: issues, summaries, dimension totals and blocking failures |
| `Mapping.Compile` | `packages/eduwork_databridge/eduwork_databridge/mapping/engine.py:53-70` | succeeds exactly when every rule is sound and targets are distinct; otherwise the first defect of the first defective rule is reported |
| `Mapping.CompiledExactly` | `packages/eduwork_databridge/eduwork_databridge/mapping/engine.py:53-70` | a rule list compiles exactly when every rule has what its transformation needs and no target occurs twice |
| `Mapping.Head` | `packages/eduwork_databridge/eduwork_databridge/mapping/engine.py:164-164` | the selection is a prefix of the length that the limit gives |
| `Mapping.SourceKeyExactly` | `packages/eduwork_databridge/eduwork_databridge/mapping/engine.py:79-83` | the source key is the first of the four fields that is not missing, or the row number |
| `Mapping.MapRecord` | `packages/eduwork_databridge/eduwork_databridge/mapping/engine.py:168-193` | an exception other than the three caught kinds ends the call at the first rule that raises it; otherwise no issue exactly when every rule succeeds, and then each target holds its rule's value, other fields their defaults, and the key field the source key |
| `Mapping.Execute` | `packages/eduwork_databridge/eduwork_databridge/mapping/engine.py:154-194` | the compile error, the first uncaught exception, or the outputs and issues of all selected records in order |
| `Mapping.OutputUnique` | `packages/eduwork_databridge/eduwork_databridge/mapping/engine.py:168-193` | the output of a record is determined by what it must hold |
| `Mapping.RequiredIsGiven` | `packages/eduwork_databridge/eduwork_databridge/mapping/engine.py:175-177` | a required target of an output is neither null nor empty |
| `Mapping.CopyCarriesField` | `packages/eduwork_databridge/eduwork_databridge/mapping/engine.py:172-177` | a copying rule carries its source field |
| `Mapping.IssuesNameRules` | `packages/eduwork_databridge/eduwork_databridge/mapping/engine.py:178-188` | the issues of a record are its failing rules, each with its number and target |
| `Mapping.EveryRecordAccountedFor` | `packages/eduwork_databridge/eduwork_databridge/mapping/engine.py:167-194` | outputs and records with issues together are as many as the records |
| `Mapping.PreviewIsPrefix` | `packages/eduwork_databridge/eduwork_databridge/mapping/engine.py:164-194` | a preview with any limit returns a prefix of the outputs and of the issues of the full run |

## Left out

- Scores: `_similarity`, `_probability`, `estimate_parameters` and `evaluate` are floating-point formulas; a candidate's unrounded probability is a given real, and the rounding of reported numbers is not modelled.
- Normalization: records carry the normalized value of each field; case folding, accents and date parsing are not modelled. Each matcher's reading of the organization (trimmed in one, raw in the other) is the given value.
- Fingerprints and cluster identifiers: hashes are left out and a cluster is identified by its member set.
- Order-independence of the composite phase: it is greedy and depends on record order, so nothing is claimed.
- Change hash: taken to be injective, so the hashed material stands for it; a caller's context that has its own `dependencies` entry is not modelled.
- Orchestrator.AssetOrchestrator.RunCall: requires an acyclic dependency graph, which `register` does not check; computations may depend on the length of the log but do not change it, hooks do not raise, and log order stands for `ended_at`.
- Migrations.Upgrade6Numbers: upgrade and downgrade 0006 are functions on the database value, since each statement is one bulk query; the schema statements are not modelled.
- Review.Serializable: rows are locked by the UPDATE until commit or rollback and reads see committed data, as the database promises; deadlock detection and lost connections appear only as rollbacks.
- Desk.ReviewService.Record: the note is given without surrounding blanks; identity, permission and tenancy checks of the handlers come before the call.
- Entry identifiers: given by the database; their uniqueness is not used.
- Lineage facets, field mappings and OpenLineage files: no effect on nodes, edges or the trace; recorded nodes are identified by namespace and name.
- RateLimiter.Limiter.Dispatch: requests of one process are taken one at a time.
- ReviewQueue.WalkVisitsAll: the rows do not change during the walk; case-insensitive search is a given predicate.
- ReviewQueue.ReachableOwnRules: rule versions are left out, since every rule is filed under the same one.
- The matching desk's own queue and summary (`list_review_queue`, `review_queue_summary`): not modelled; the exception queue stands for the paging.
- Validation.FailedIndices: the record-level tests (schema, range, pattern, temporal, timeliness) are a given predicate, and field values are atoms compared by equality, so numbers of different types that the program finds equal are different here.
- Validation.RateInRange: before rounding to eight places.
- Mapping.Execute: the individual transformations, lookups and plugins are a given function of rule, value and record, including which exception they raise; masked evidence is left out.
- `diff_mappings`, `reprocess_link`, retention, connectors, exporters, profiling, telemetry and the user interface: input and output or simple comparisons.

# FinCo-Pilot verification

A Dafny model of the self-contained algorithms of FinCo-Pilot: the data migrations that rewrite
ledgers, payees and billing dates, the guard over the migration chain, the service worker's
caches, the font-subset printer, key rotation, growth reports, and the line-ending proof for legacy
SQL. Every property is stated for all inputs, all runs or all reachable states.

`dafny verify dfyconfig.toml` checks the whole project.

| file | models |
|---|---|
| `Calendar.dfy`, `CardCycle.dfy` | migration 030: credit-card cycles on the Gregorian calendar (section 5.7 and Appendix C of RFC 3339) |
| `RevisionChain.dfy`, `RevisionLine.dfy` | the revision-chain guard, and what its counting tests imply |
| `PayeeTables.dfy`, `PayeeRules.dfy`, `PayeeMerge.dfy`, `PayeeExactMerge.dfy` | the payee merges 076 and 072 over tables with foreign-key actions |
| `PayeeBothMerges.dfy`, `PayeeBothTables.dfy` | 072 and 076 in a row, table by table, against 076 alone |
| `ServiceWorker.dfy`, `ServiceWorkerSafety.dfy`, `ServiceWorkerStories.dfy` | the service worker as interleaved handler steps, its invariants over every run, and what each handler does from its event to its answer |
| `UnicodeRange.dfy` | the `unicode-range` printer and a parser for section 4.5 of CSS Fonts Module Level 3 |
| `OpeningBalance.dfy`, `AssetLedger.dfy` | migrations 029 and 059: cent-exact backfills |
| `KeyRotation.dfy` | two-phase data-key rotation over abstract cryptography |
| `MigrationSources.dfy`, `GrowthReport.dfy` | checksum reconstruction; report producer against validator |
| `Wrappers.dfy`, `Pigeonhole.dfy` | result types; counting arguments |

Tables that the source reads in an order are sequences; tables it addresses by key are maps. Rows a
script changes are fields of a class that its methods reassign. A database transaction that raises
is rolled back, so a failing method leaves the state it started from. UUIDs are naturals with their
order; money is in cents, units and unit prices in millionths, days are ordinals.

## Where the code does less than it says

- The chain guard says an empty report means a single straight line. A detached cycle of parents has
  neither base nor head and passes. `RevisionLine.DetachedCyclePasses` shows it, and
  `RevisionLine.GuardMeansSingleLine` gives the exact condition: a history that passes is a single
  line if and only if it has no parent cycle.
- Two billing cycles can share a due date. `CardCycle.CyclesStayApartExactly` says for which card
  settings: those with the due day after a close day of 28 or more.
- Key rotation keeps every plaintext sealed under a key the ring still accepts
  (`KeyRotation.HeldSecretSurvives`). It drops a token of an empty plaintext
  (`KeyRotation.ReencryptedReadsBack`, `KeyRotation.EmptyPlaintextExample`), which the application's
  own encryption never stores (`KeyRotation.StoredIsNeverEmpty`).
- Migration 076 replaces merged payees in rule conditions completely if and only if none sits deeper
  than one group and a rule that tests a merged payee has no empty group
  (`PayeeRules.RewriteIsCompleteExactly`). The rule schema refuses deeper groups and empty ones
  (`backend/app/schemas/rule.py:28-53`), so every rule it accepts is rewritten completely
  (`PayeeRules.SavableRulesAreRewritten`); rows it would refuse are in
  `PayeeRules.UnsavableRulesExample`.
- Migration 072 rewrites no rules, and 076 cannot find the payees 072 has already deleted. After both,
  rules refer to a deleted payee exactly as `PayeeBothMerges.RulesMissTheExactMerge` says;
  `PayeeBothMerges.RuleLeftDanglingExample` has two payees and one rule.
- 072 records no mapping for the payees it deletes, and may drop the document 076 would have kept:
  `PayeeBothTables.BothMapAlikeExactly` and `PayeeBothTables.BothFileTaxIdsAlikeExactly` give the exact
  conditions under which nothing is lost, and `PayeeBothTables.MappingsDifferExample` and
  `PayeeBothTables.TaxIdsDifferExample` inputs that do not meet them.
- 072's unranked move of tax ids fails exactly when two duplicates bring one keeper the same new kind
  (`PayeeExactMerge.UnrankedMoveFailsExactly`, `PayeeExactMerge.UnrankedMoveFailsExample`).
- The service worker promises that API responses are never cached. It warms a shell's references by
  their text and stores them under the URL they resolve to, so the promise holds for exactly those
  shells without a reference such as `/static/../api/me` (`ServiceWorkerSafety.CachedOutsideExactly`).
- Downgrading 029 restores the start if and only if no row with its own signature existed before
  (`OpeningBalance.DowngradeRestoresExactly`, `OpeningBalance.DowngradeLosesRowExample`).
- The backfilled buy recovers every purchase price of a holding of at most ten thousand units, and no
  larger holding recovers all of them (`AssetLedger.RecoveryThreshold`, `AssetLedger.TotalIsLostExample`).

## Model

| member | source | states |
|---|---|---|
| `Calendar.OrdinalOrder` | backend/alembic/versions/030_rebucket_cc_effective_dates_brazilian_convention.py:39-48 | comparing dates by (year, month, day) is comparing their day numbers, across months, leap years and year ends |
| `Calendar.DaysBeforeYearClosedForm` | backend/alembic/versions/030_rebucket_cc_effective_dates_brazilian_convention.py:30-32 | adding up year lengths under the leap-year rule gives the closed Gregorian day count, so the calendar is the proleptic one Python uses |
| `Calendar.DaysBeforeMonthClosedForm` | backend/alembic/versions/030_rebucket_cc_effective_dates_brazilian_convention.py:30-32 | adding up month lengths gives the closed form counted from March, and every month fills the gap to the next |
| `Calendar.OrdinalClosedForm` | backend/alembic/versions/030_rebucket_cc_effective_dates_brazilian_convention.py:30-32 | the day number of every date in closed form, with 1 January 1970 as day 719163 |
| `Calendar.ValidExamples` | backend/alembic/versions/030_rebucket_cc_effective_dates_brazilian_convention.py:30-32 | the first day there is, leap days that exist and days that do not |
| `CardCycle.FollowingDayIsLeast` | backend/alembic/versions/030_rebucket_cc_effective_dates_brazilian_convention.py:39-45 | this-month-else-next-month picks the least clamped occurrence of a day strictly after the reference |
| `CardCycle.FollowingDayFails` | backend/alembic/versions/030_rebucket_cc_effective_dates_brazilian_convention.py:30-32 | it fails exactly when every later occurrence lies past the last year Python can hold |
| `CardCycle.EffectiveDateIsLeastDue` | backend/alembic/versions/030_rebucket_cc_effective_dates_brazilian_convention.py:35-52 | a date is the effective date if and only if it is the least due date after the least close date after the transaction, and is representable |
| `CardCycle.EffectiveDateMonotone` | backend/alembic/versions/030_rebucket_cc_effective_dates_brazilian_convention.py:35-52 | a later transaction never falls due earlier |
| `CardCycle.CloseDayGoesToNextInvoice` | backend/alembic/versions/030_rebucket_cc_effective_dates_brazilian_convention.py:39-40 | a transaction on the close day misses the invoice closing that day, while every earlier one is on it or before it |
| `CardCycle.EffectiveDateGap` | backend/alembic/versions/030_rebucket_cc_effective_dates_brazilian_convention.py:35-52 | the due date lies 2 to 62 days after the transaction |
| `CardCycle.EffectiveDateGapIsTight` | backend/alembic/versions/030_rebucket_cc_effective_dates_brazilian_convention.py:35-52 | both bounds are reached |
| `CardCycle.RebucketedGap` | backend/alembic/versions/030_rebucket_cc_effective_dates_brazilian_convention.py:70-83 | every rebucketed row of a billed card falls due 2 to 62 days after its own date |
| `CardCycle.CyclesStayApartExactly` | backend/alembic/versions/030_rebucket_cc_effective_dates_brazilian_convention.py:35-52 | different cycles always get different effective dates if and only if the due day is not after the close day, or the close day is at most 27 |
| `CardCycle.FebruaryMergesIntoMarch` | backend/alembic/versions/030_rebucket_cc_effective_dates_brazilian_convention.py:30-52 | for every other setting a 28-day February shares March's due date |
| `CardCycle.DueOnExactly` | backend/alembic/versions/030_rebucket_cc_effective_dates_brazilian_convention.py:35-52 | the same for every setting and every date, days below one included, where the source raises |
| `CardCycle.BillingMeaning` | backend/alembic/versions/030_rebucket_cc_effective_dates_brazilian_convention.py:58-83 | a row is billed exactly when its account is a credit card with both days configured, and fails exactly when its due date lies past the last year or a day is below one |
| `CardCycle.CardLedger.RebucketCard` | backend/alembic/versions/030_rebucket_cc_effective_dates_brazilian_convention.py:70-83 | the inner loop gives each of one card's rows the least due date after the least close date after its own date, touches no other row, and stops only where there is none |
| `CardCycle.CardLedger.Upgrade` | backend/alembic/versions/030_rebucket_cc_effective_dates_brazilian_convention.py:55-83 | every row of every credit card with both days configured gets that date for its own close and due day, all other rows are unchanged, and a failure changes nothing |
| `RevisionChain.GroupById` | backend/scripts/check_migration_chain.py:77-79 | the dictionary holds, for each id claimed, exactly the files claiming it |
| `RevisionChain.Check` | backend/scripts/check_migration_chain.py:71-127 | the report holds exactly the problems the files have, kind by kind, and is empty if and only if every file parsed, there is one, and the local tests pass |
| `RevisionChain.ProblemMeaning` | backend/scripts/check_migration_chain.py:71-127 | each reported problem in terms of the files alone: which ids are claimed twice, which parents are missing, which files have no parent or no child, by name and number, and which names do not start with their id |
| `RevisionChain.Prefix` | backend/scripts/check_migration_chain.py:119 | the longest start of the file name without an underscore |
| `RevisionChain.NothingToReport` | backend/scripts/check_migration_chain.py:81-125 | no problem exists if and only if ids are distinct, parents exist, there is one base and one head, and file names match |
| `RevisionLine.AtMostOneChild` | backend/scripts/check_migration_chain.py:97-114 | one base and one head leave no revision with two children, by counting |
| `RevisionLine.SoundShape` | backend/scripts/check_migration_chain.py:71-127 | after a clean report the walk from the base ends at the head, and the revisions off it are exactly those on parent cycles |
| `RevisionLine.GuardMeansSingleLine` | backend/scripts/check_migration_chain.py:71-127 | passing without a parent cycle is the same as being one correctly named straight line through every file |
| `RevisionLine.DetachedCyclePasses` | backend/scripts/check_migration_chain.py:97-114 | a line with two revisions that are each other's parent beside it passes and is not a single line |
| `RevisionLine.DetachedCycleExample` | backend/scripts/check_migration_chain.py:97-114 | four files that pass and are not a single line |
| `RevisionLine.StraightLineExample` | backend/scripts/check_migration_chain.py:71-127 | two chained files pass and are a single line |
| `RevisionLine.AnnouncedHeadEndsTheLine` | backend/scripts/check_migration_chain.py:149-155 | the head announced after a clean report is the last revision of the line |
| `PayeeTables.KeeperIsOldestRow` | backend/alembic/versions/076_payee_workspace_uniqueness.py:27-36 | the payee a group is folded into is the one of its workspace and normalised name that was created first, the smallest id deciding between equal times, and no other |
| `PayeeTables.DuplicatesExactly` | backend/alembic/versions/076_payee_workspace_uniqueness.py:22-41 | a payee is folded into another if and only if an older one, or one as old with a smaller id, has its workspace and normalised name |
| `PayeeTables.DedupeIsRankAboveOne` | backend/alembic/versions/076_payee_workspace_uniqueness.py:22-41 | the temporary table lists exactly the payees ranked second or later in their group by (created_at, id), which is what 072 asks with another comparison |
| `PayeeTables.DedupeIsOneHop` | backend/alembic/versions/076_payee_workspace_uniqueness.py:22-41 | no keeper is itself a duplicate |
| `PayeeMerge.OnePayeePerName` | backend/alembic/versions/076_payee_workspace_uniqueness.py:222-234 | each (workspace, normalised name) keeps exactly its oldest payee, unchanged, so the unique index can be built |
| `PayeeMerge.TransactionsKeepTheirPayee` | backend/alembic/versions/076_payee_workspace_uniqueness.py:107-114 | no transaction is lost or nulled by the delete; each points at the keeper, which has the workspace and normalised name it had |
| `PayeeMerge.NoMappingCascades` | backend/alembic/versions/076_payee_workspace_uniqueness.py:115-137 | the delete removes no merge mapping |
| `PayeeMerge.MappingsLeadToKeepers` | backend/alembic/versions/076_payee_workspace_uniqueness.py:115-137 | every deleted id maps in one hop to its keeper, every other mapping follows its target, users are kept or taken from the deleted payee, untouched mappings stay, and all targets survive |
| `PayeeMerge.TouchedMappingsMoveWorkspace` | backend/alembic/versions/076_payee_workspace_uniqueness.py:115-137 | every mapping touched carries the workspace of the payee it leads to |
| `PayeeMerge.TaxIdsLeft` | backend/alembic/versions/076_payee_workspace_uniqueness.py:80-106 | the documents left are the survivors' own and each keeper's first-ranked one per kind it lacked |
| `PayeeMerge.TaxIdKindsStayUnique` | backend/alembic/versions/076_payee_workspace_uniqueness.py:80-106 | (payee, kind) stays unique in every case and every document's payee exists |
| `PayeeMerge.OwnTaxIdsAreKept` | backend/alembic/versions/076_payee_workspace_uniqueness.py:93-98 | a keeper's own documents are never replaced |
| `PayeeMerge.MovedTaxIdIsOldest` | backend/alembic/versions/076_payee_workspace_uniqueness.py:86-104 | a document that changes hands was created before every other of that kind in the group, the smallest id deciding between equal times, the keeper having none |
| `PayeeMerge.KeeperHasGroupsKinds` | backend/alembic/versions/076_payee_workspace_uniqueness.py:80-106 | a keeper ends up with a kind if and only if some member of its group had it |
| `PayeeMerge.ActionsFollowKeepers` | backend/alembic/versions/076_payee_workspace_uniqueness.py:138-167 | rule actions keep their order and number; those setting a payee set its keeper, all others are untouched |
| `PayeeMerge.RulesTestSurvivors` | backend/alembic/versions/076_payee_workspace_uniqueness.py:168-221 | a rule tests a deleted payee afterwards if and only if one sat deeper than one group |
| `PayeeRules.LoopOrderIsIrrelevant` | backend/alembic/versions/076_payee_workspace_uniqueness.py:168-221 | the one-duplicate-at-a-time loop gives the simultaneous rewrite in whatever order it takes the duplicates |
| `PayeeRules.RewriteIsCompleteExactly` | backend/alembic/versions/076_payee_workspace_uniqueness.py:174-217 | the rewrite equals replacing every merged id at any depth, and nothing else, if and only if no merged id is deeper than one group and a rule testing one has no empty group |
| `PayeeRules.SavableRulesAreRewritten` | backend/app/schemas/rule.py:28-53 | a rule the schema accepts, two levels without empty groups, has every merged payee replaced by its keeper, and stays acceptable |
| `PayeeRules.SavableExamples` | backend/app/schemas/rule.py:28-53 | the schema takes leaves and groups of leaves, and refuses an empty group and a group inside a group |
| `PayeeRules.UnsavableRulesExample` | backend/alembic/versions/076_payee_workspace_uniqueness.py:174-217 | a payee inside a group inside a group stays, and an empty group beside a rewritten leaf becomes null |
| `PayeeTables.DeleteLosesOnlyTheGone` | backend/alembic/versions/019_payees.py:38-56 | a delete leaves no dangling reference, keeps every transaction, nulls or cascades exactly the rows of the payees that go, and takes nothing from a surviving payee |
| `PayeeMerge.PayeeStore.RewriteAllConditions` | backend/alembic/versions/076_payee_workspace_uniqueness.py:173-218 | the loop over the duplicates, in no promised order, leaves every rule with the simultaneous rewrite |
| `PayeeMerge.PayeeStore.Upgrade` | backend/alembic/versions/076_payee_workspace_uniqueness.py:19-234 | the statements in their order take the five tables to the states the lemmas above describe, keep them consistent, and leave names unique |
| `PayeeExactMerge.UnrankedMoveFailsExactly` | backend/alembic/versions/072_payee_unique_per_workspace.py:86-98 | 072's unranked move breaks the unique constraint if and only if two duplicates of one keeper bring the same new kind |
| `PayeeExactMerge.UnrankedMoveFailsExample` | backend/alembic/versions/072_payee_unique_per_workspace.py:86-98 | three rows of one name and two documents are enough for it to fail |
| `PayeeExactMerge.Upgrade` | backend/alembic/versions/072_payee_unique_per_workspace.py:64-105 | 072 succeeds in exactly the other cases, takes four tables to the states described below and leaves rules alone; otherwise it changes nothing |
| `PayeeExactMerge.ExactMappingsFollow` | backend/alembic/versions/072_payee_unique_per_workspace.py:74-81 | no mapping cascades; each targets the exact-name keeper of its old target, which exists |
| `PayeeExactMerge.ExactTaxIdsLeft` | backend/alembic/versions/072_payee_unique_per_workspace.py:86-105 | the documents left are the keepers' own and every one of a kind its keeper lacked |
| `PayeeExactMerge.ExactTaxIdsStayUnique` | backend/alembic/versions/072_payee_unique_per_workspace.py:86-105 | where 072 does not raise, (payee, kind) is unique and every document's payee exists |
| `PayeeExactMerge.ExactKeeperHasGroupsKinds` | backend/alembic/versions/072_payee_unique_per_workspace.py:82-98 | a keeper ends up with a kind if and only if some row of its exact name had it |
| `PayeeBothMerges.MinimumOfMinima` | backend/alembic/versions/072_payee_unique_per_workspace.py:39-47 | the oldest of the exact-name keepers is the oldest of the normalised-name group |
| `PayeeBothMerges.BothKeepSamePayees` | backend/alembic/versions/076_payee_workspace_uniqueness.py:20-41 | 072 and then 076 keep the payees 076 alone keeps |
| `PayeeBothMerges.BothSendTransactionsAlike` | backend/alembic/versions/072_payee_unique_per_workspace.py:64-105 | 072 and then 076 send every transaction where 076 alone would |
| `PayeeBothMerges.MergesSplit` | backend/alembic/versions/076_payee_workspace_uniqueness.py:22-41 | every payee 076 alone would merge is merged by exactly one of the two migrations and ends up at the same keeper |
| `PayeeBothMerges.RulesMissTheExactMerge` | backend/alembic/versions/072_payee_unique_per_workspace.py:64-105 | after both, a rule tests a deleted payee if and only if it tested one 072 merged or one 076 merges sat deeper than one group; an action sets one if and only if it set one 072 merged |
| `PayeeBothMerges.BothRewriteRulesAlikeExactly` | backend/alembic/versions/072_payee_unique_per_workspace.py:64-105 | all rules come out of both as out of 076 alone if and only if none sets or, within two levels, tests a payee 072 merged, and no empty group is nulled only because of one |
| `PayeeBothMerges.SavableRuleIndifferent` | backend/app/schemas/rule.py:28-53 | for a rule the schema accepts the condition is that it neither sets nor tests a payee 072 merged |
| `PayeeBothMerges.RuleLeftDanglingExample` | backend/alembic/versions/072_payee_unique_per_workspace.py:64-105 | two payees of one name and a rule about the younger show it |
| `PayeeBothTables.BothMapAlmostAlike` | backend/alembic/versions/072_payee_unique_per_workspace.py:74-81 | after both, the mapping table lacks exactly the ids 072 deleted that had no mapping; every other mapping has the user, and under an id 072 kept the target, it has after 076 alone |
| `PayeeBothTables.BothMapAlikeExactly` | backend/alembic/versions/072_payee_unique_per_workspace.py:74-81 | the mapping tables are equal if and only if every id 072 deletes had a mapping and each mapping meets a stated condition on its target and workspace |
| `PayeeBothTables.MappingsDifferExample` | backend/alembic/versions/072_payee_unique_per_workspace.py:74-81 | two payees of one name: 076 alone records where the younger went, after 072 it does not |
| `PayeeBothTables.BothKeepSameKinds` | backend/alembic/versions/072_payee_unique_per_workspace.py:82-98 | a surviving payee has the same kinds of documents after both as after 076 alone |
| `PayeeBothTables.BothFileTaxIdsAlikeExactly` | backend/alembic/versions/072_payee_unique_per_workspace.py:82-98 | the documents are the same if and only if each one 076 alone would move survives 072 as the one to move |
| `PayeeBothTables.TaxIdsDifferExample` | backend/alembic/versions/072_payee_unique_per_workspace.py:82-98 | two variants of a name and two documents for which they are not |
| `PayeeBothTables.UpgradeBoth` | backend/alembic/versions/076_payee_workspace_uniqueness.py:19-234 | running 072 and then 076 reaches the tables compared above and keeps them consistent, or changes nothing |
| `ServiceWorkerStories.DispatchExactly` | frontend/public/sw.js:169-199 | which requests each handler takes, and which go to the network untouched |
| `ServiceWorkerStories.NavigationRuns` | frontend/public/sw.js:129-144 | from its event on and whatever happens in between, a navigation is answered with what the network gave it, whatever that is; only without an answer with the stored shell, and only without one with the offline page |
| `ServiceWorkerStories.StaticRuns` | frontend/public/sw.js:146-157 | a static request is answered from the cache without asking the network; on a miss with the network's answer, stored first if and only if it is worth keeping; it fails only without an answer or when the put does |
| `ServiceWorkerStories.PublicRuns` | frontend/public/sw.js:159-167 | the same for the icons and fonts of the application shell |
| `ServiceWorkerStories.InstallRuns` | frontend/public/sw.js:87-107 | an install that gets through has stored a genuine shell, then each static asset it references, then each icon and font, except those that were refused; it fails only without a genuine shell to store |
| `ServiceWorkerStories.ActivateRuns` | frontend/public/sw.js:109-121 | once an activation has finished no cache of another version of the application is left, then or later |
| `ServiceWorkerStories.StoredIsStorable` | frontend/public/sw.js:40-49 | every stored response was successful, not redirected and not opaque, came from the network under its URL, and a stored /index.html carries the shell marker and is the origin's own document |
| `ServiceWorkerStories.NothingStoredByFailedPut` | frontend/public/sw.js:146-157 | a step whose put fails stores nothing: what is in a cache after it was there before |
| `ServiceWorkerStories.OthersReachTheNetwork` | frontend/public/sw.js:169-199 | a request the worker does not handle leaves caches and handlers as they are |
| `ServiceWorkerStories.EveryHandlerCanFinish` | frontend/public/sw.js:51-199 | no handler gets stuck: from any state whatever, some steps of its own let it answer, finish or fail |
| `ServiceWorkerSafety.ContentsAlwaysOk` | frontend/public/sw.js:40-107 | in every reachable state static keys lie under /static/ or are what an asset reference of a served shell resolves to, shell keys lie in the application shell, every stored response is a public one the origin gave for that URL, and /index.html is a genuine shell |
| `ServiceWorkerSafety.StaticKeysStayStatic` | frontend/public/sw.js:63-85 | static keys lie under /static/ as long as every asset reference of every served shell resolves under it |
| `ServiceWorkerSafety.PrivateDataIsNeverCached` | frontend/public/sw.js:169-199 | no response for an API or MCP path, with or without a query, is ever in a cache, as long as no served shell has a static asset reference that resolves to it |
| `ServiceWorkerSafety.CachedOutsideExactly` | frontend/public/sw.js:63-85 | for each shell an origin may serve, a URL outside /static/ and the application shell gets into a cache in some run if and only if one of that shell's references written as a static asset resolves to it |
| `ServiceWorkerSafety.CacheFirstIsFresh` | frontend/public/sw.js:146-157 | for an asset the origin never changes, a cache hit is the response the network gives now or later |
| `ServiceWorkerSafety.CurrentAndForeignCachesSurvive` | frontend/public/sw.js:109-121 | no activation deletes a cache of the current version or one that is not the application's |
| `ServiceWorkerSafety.StaticCacheSize` | frontend/public/sw.js:51-55 | at any moment the static cache exceeds 96 entries by no more than the keys trims still have to deal with |
| `ServiceWorkerSafety.QuietCacheIsWithinLimit` | frontend/public/sw.js:63-85 | over any interleaving, with trims working from stale snapshots, the static cache holds at most 96 entries when no put-then-trim is in flight or was cut off |
| `ServiceWorkerSafety.AtMost96` | frontend/public/sw.js:51-55 | in a run in which no handler is stopped the static cache holds at most 96 entries whenever no put-then-trim is in flight |
| `ServiceWorkerSafety.AtMost96AfterTrim` | frontend/public/sw.js:51-55 | a trim makes up for handlers stopped before it: from its snapshot on the same limit holds while none is stopped |
| `ServiceWorkerSafety.TrimKeepsNewest` | frontend/public/sw.js:51-55 | in any run in which no other handler steps during a trim, the cache holds exactly the newest entries in order once it is done, whatever order its deletes finish in |
| `ServiceWorkerSafety.OfflineNavigationGetsShell` | frontend/public/sw.js:129-144 | once an install has stored the shell, no navigation in any continuation is answered with the bare offline page any more, and one answered from the cache gets a genuine shell |
| `UnicodeRange.Sorted` | scripts/subset-heading-fonts.py:40 | the code points of the set, each once, ascending |
| `UnicodeRange.RunsAreMaximal` | scripts/subset-heading-fonts.py:39-49 | the runs cover exactly the set, ascending and non-adjacent |
| `UnicodeRange.FewestRanges` | scripts/subset-heading-fonts.py:39-49 | no list of ranges covering the same code points is shorter |
| `UnicodeRange.RenderRoundTrip` | scripts/subset-heading-fonts.py:47-49 | parsing printed ranges gives the same ranges |
| `UnicodeRange.RenderExample` | scripts/subset-heading-fonts.py:47-49 | what is printed for printable ASCII and the euro sign |
| `UnicodeRange.DigitExamples` | scripts/subset-heading-fonts.py:47-49 | the reader takes lower-case digits as well, and no text of more than six digits |
| `UnicodeRange.RangeExamples` | scripts/subset-heading-fonts.py:47-49 | the reader takes a lower-case prefix as well, and refuses a descending range and a text without the prefix |
| `UnicodeRange.LastCodePointExample` | scripts/subset-heading-fonts.py:39-49 | the reader takes the last code point there is and nothing beyond |
| `UnicodeRange.PrintRanges` | scripts/subset-heading-fonts.py:39-49 | the loop prints exactly the maximal runs of the sorted set |
| `UnicodeRange.PrintedRangesAreTheSet` | scripts/subset-heading-fonts.py:39-49 | read back, the text is the non-empty set, in the fewest ascending separated ranges |
| `UnicodeRange.EachCodePointDeclaredOnce` | scripts/subset-heading-fonts.py:20-36 | each code point of a font is declared by exactly one of the printed descriptors of its three groups, and no other is declared |
| `UnicodeRange.DescriptorsByBlock` | scripts/subset-heading-fonts.py:20-36 | the first descriptor declares the code points in the listed Latin blocks, the second those in the listed Greek and Cyrillic ones, the third the rest |
| `OpeningBalance.BankLedger.InsertRows` | backend/alembic/versions/029_backfill_opening_balance_for_connected_accounts.py:50-126 | the loop inserts for each account the row computed from the transactions before the migration, whatever was inserted for others |
| `OpeningBalance.BankLedger.Upgrade` | backend/alembic/versions/029_backfill_opening_balance_for_connected_accounts.py:32-126 | the selected accounts' rows are appended, or nothing changes |
| `OpeningBalance.WhatARowAdds` | backend/alembic/versions/029_backfill_opening_balance_for_connected_accounts.py:62-88 | what one row adds to a sum, by kind, currency and known primary amount |
| `OpeningBalance.SelectedAccountsAddUp` | backend/alembic/versions/029_backfill_opening_balance_for_connected_accounts.py:53-101 | every selected account with transactions sums to its balance, to minus its balance for a credit card, to the cent |
| `OpeningBalance.OpeningRowsExactly` | backend/alembic/versions/029_backfill_opening_balance_for_connected_accounts.py:36-126 | exactly the connected accounts without an opening row whose transactions miss the balance get a row, and it is a posted credit or debit of what is missing, dated the day before their first |
| `OpeningBalance.RaisesOnlyAtTheStart` | backend/alembic/versions/029_backfill_opening_balance_for_connected_accounts.py:104-105 | the migration fails only where such an account has a transaction on the first day there is |
| `OpeningBalance.OpeningRowComesFirst` | backend/alembic/versions/029_backfill_opening_balance_for_connected_accounts.py:97-123 | the new row is dated before every other row of its account |
| `OpeningBalance.OtherAccountsUnchanged` | backend/alembic/versions/029_backfill_opening_balance_for_connected_accounts.py:36-48 | accounts not selected, or without transactions, get no row |
| `OpeningBalance.SecondRunInsertsNothing` | backend/alembic/versions/029_backfill_opening_balance_for_connected_accounts.py:42-46 | running the migration again inserts nothing |
| `OpeningBalance.BankLedger.Downgrade` | backend/alembic/versions/029_backfill_opening_balance_for_connected_accounts.py:129-146 | downgrade leaves the table of which the next two rows speak |
| `OpeningBalance.DowngradeExactly` | backend/alembic/versions/029_backfill_opening_balance_for_connected_accounts.py:129-146 | downgrade removes every row with the migration's source and description on a connected account, and keeps every other as often as it was there |
| `OpeningBalance.DowngradeRestoresExactly` | backend/alembic/versions/029_backfill_opening_balance_for_connected_accounts.py:129-146 | downgrade restores the start if and only if no row with the migration's signature existed before |
| `OpeningBalance.DowngradeLosesRowExample` | backend/alembic/versions/029_backfill_opening_balance_for_connected_accounts.py:129-146 | an opening row written before the migration is deleted by its downgrade |
| `AssetLedger.PriceIsNearest` | backend/alembic/versions/059_asset_transactions.py:73-75 | the price is the nearest number of millionths, ties away from zero |
| `AssetLedger.PriceErrorPerUnit` | backend/alembic/versions/059_asset_transactions.py:73-75 | quantity times price misses the purchase price by at most half a millionth per unit |
| `AssetLedger.TotalIsRecovered` | backend/alembic/versions/059_asset_transactions.py:73-92 | up to ten thousand units, rounding to cents recovers the total |
| `AssetLedger.RecoveryThreshold` | backend/alembic/versions/059_asset_transactions.py:73-92 | a holding of a given size recovers every total if and only if it has at most ten thousand units; every larger one loses some |
| `AssetLedger.TotalIsLostExample` | backend/alembic/versions/059_asset_transactions.py:73-75 | one millionth of a unit more, and a total of fifty million comes back a cent off |
| `AssetLedger.LedgerNetsOut` | backend/alembic/versions/059_asset_transactions.py:68-99 | the ledger nets to the units bought and not sold, so to zero for a holding with both entries |
| `AssetLedger.GainIsRecovered` | backend/alembic/versions/059_asset_transactions.py:101-122 | purchase price, sell price, cached gain and average price agree with the entries exactly |
| `AssetLedger.CachedExactly` | backend/alembic/versions/059_asset_transactions.py:101-122 | which holdings get an average price and a realized gain, and which; all other columns are unchanged |
| `AssetLedger.LedgerExactly` | backend/alembic/versions/059_asset_transactions.py:68-99 | in the columns' own terms: which holdings get exactly one buy and exactly one sell, with which quantity, price and date, and that nothing else is entered for them |
| `AssetLedger.OneEntryPerHolding` | backend/alembic/versions/059_asset_transactions.py:68-99 | each holding bought has exactly one buy entry and each holding sold exactly one sell entry, with its quantity, price and date, and no entry belongs to anything else |
| `AssetLedger.Portfolio.Upgrade` | backend/alembic/versions/059_asset_transactions.py:68-122 | the two inserts leave one buy per holding bought and one sell per holding sold, and the cached columns are filled |
| `KeyRotation.RowsMeaning` | backend/scripts/rotate_data_keys.py:31-75 | when every row can be read, column by column: which credentials a key of the ring opens, which seeds load, and that each marked copilot has a version and the signature a signing key of the ring gives for it |
| `KeyRotation.SecretStore.RotateData` | backend/scripts/rotate_data_keys.py:31-82 | raises exactly when some row cannot be read in that sense; then, as in a dry run, no row changes; otherwise every row is rotated, and each marked copilot carries the signing key's own signature |
| `KeyRotation.RecognisedExactly` | backend/app/agents/services/agent_service.py:52-73 | which rows the application recognises as its copilot, a missing version counting as zero |
| `KeyRotation.RecognisedIsResigned` | backend/app/agents/services/agent_service.py:52-73 | every copilot the application recognised is re-signed |
| `KeyRotation.StoredReadsBack` | backend/app/agents/services/crypto.py:45-65 | what was stored under an earlier ring is read back by every ring that still accepts the key of that time, and by none as anything else |
| `KeyRotation.HeldIsReadable` | backend/scripts/rotate_data_keys.py:34-80 | values written under keys the ring still accepts, with the current or the historical salt, never make the rotation raise |
| `KeyRotation.HeldSecretSurvives` | backend/scripts/rotate_data_keys.py:35-53 | a secret sealed under any key of the ring is, once rotated, read from the target key alone as the plaintext that was sealed |
| `KeyRotation.ReencryptedReadsBack` | backend/scripts/rotate_data_keys.py:35-53 | whatever its origin, a rotated value decrypts under the target key alone to what the ring read before if and only if that is not empty; an empty one is dropped |
| `KeyRotation.EmptyPlaintextExample` | backend/scripts/rotate_data_keys.py:35-40 | a token of an empty plaintext passes the check and is dropped, under cryptography that meets the laws |
| `KeyRotation.StoredIsNeverEmpty` | backend/app/agents/services/crypto.py:45-48 | what the application itself stores for a plaintext is never read as nothing, by the ring it was stored under or any later one |
| `KeyRotation.LlmSurvives` | backend/scripts/rotate_data_keys.py:34-41 | a rotated connection is readable without the prior keys, with its plaintext kept if not empty |
| `KeyRotation.BankSurvives` | backend/scripts/rotate_data_keys.py:42-55 | both bank secrets are kept likewise, and every other credential field is untouched |
| `KeyRotation.AgentSurvives` | backend/scripts/rotate_data_keys.py:56-68 | a re-signed copilot is recognised without the prior keys and nothing but its signature changed |
| `KeyRotation.UserSurvives` | backend/scripts/rotate_data_keys.py:69-80 | a re-encrypted authenticator seed loads without the prior keys as the seed it was |
| `KeyRotation.SeedLoadsExactly` | backend/app/core/mfa_secret.py:21-38 | what loading the column gives for every stored text: nothing, the text itself, or what the first key that opens it gives; and nothing is stored for nothing |
| `KeyRotation.SeedRoundTrip` | backend/app/core/mfa_secret.py:21-38 | a seed stored under an earlier ring loads as itself under every ring that still accepts its key, and under no ring as anything else |
| `KeyRotation.RotateThenVerify` | backend/scripts/rotate_data_keys.py:85-93 | after an applied rotation the dry run with the prior keys withdrawn cannot raise, and every secret and seed that was sealed under a key of the ring is there as the plaintext it was |
| `MigrationSources.LineEndingExample` | backend/scripts/verify_legacy_migration_sources.py:37-39 | a mixed text of two lines in both forms, byte by byte |
| `MigrationSources.CrlfRoundTrip` | backend/scripts/verify_legacy_migration_sources.py:37-39 | converting to CRLF and back is the identity on every byte string |
| `MigrationSources.LfFixesExactly` | backend/scripts/verify_legacy_migration_sources.py:37 | converting to LF leaves a text as it is if and only if it has no CRLF pair |
| `MigrationSources.EitherFormMatchesEither` | backend/scripts/verify_legacy_migration_sources.py:36-43 | a text without CRLF pairs, held in either form, matches a checksum recorded for either |
| `MigrationSources.ConversionMatchesExactly` | backend/scripts/verify_legacy_migration_sources.py:36-43 | with a collision-free hash a source matches the checksum of its own conversion if and only if it has no CRLF pair; the way back always matches |
| `MigrationSources.Reconstruct` | backend/scripts/verify_legacy_migration_sources.py:38-43 | the chosen candidate has the recorded hash and is the first in order that has, original bytes before LF before CRLF; none is chosen only if none has it |
| `MigrationSources.VerifySources` | backend/scripts/verify_legacy_migration_sources.py:14-58 | accepts exactly the non-empty histories of distinct files whose own, LF or CRLF bytes have the recorded checksum, with one row each that says which, the number that needed no conversion, and the SQL files no record names |
| `MigrationSources.AcceptedRowIsGenuine` | backend/scripts/verify_legacy_migration_sources.py:40-46 | the labelled candidate of an accepted row really has the recorded hash |
| `GrowthReport.SearchAcceptedMeaning` | scripts/growth_report.py:63-79 | which exports are accepted and what their totals are, in terms of the cells: all clicks, all impressions, and the clicks of queries that do and do not name the brand |
| `GrowthReport.FunnelAcceptedMeaning` | scripts/growth_report.py:82-102 | the same for the cohort |
| `GrowthReport.TotalSearch` | scripts/growth_report.py:63-79 | an export is accepted exactly when all rows are usable and no total is unsafe; brand and nonbrand then split the clicks, which do not exceed impressions |
| `GrowthReport.TotalFunnel` | scripts/growth_report.py:82-102 | the same for the cohort, whose counts stay nested |
| `GrowthReport.AssembledIsValid` | scripts/growth_report.py:126-163 | a report of consistent totals is accepted unchanged by the validator, its rates within the tolerance, for every rounding of the division that keeps proportions between 0 and 1 |
| `GrowthReport.ExactDivisionKeepsProportions` | scripts/growth_report.py:100-101 | exact division is one that does |
| `GrowthReport.ValidatedExactly` | scripts/growth_report.py:126-163 | exactly which reports the validator accepts, metric by metric, and that it returns them with absent metrics filled in as unknown |
| `GrowthReport.BuildReport` | scripts/growth_report.py:105-123 | a report is built exactly from a proper interval and accepted exports; each named metric is what its own export adds up to; and the validator accepts it unchanged |

## Left out

- 076's merge of notes, favourites and contact fields: nothing depends on it.
- DDL around the migrations (tables, columns, indexes, constraints): only the unique constraints the data must meet are modelled.
- Text normalisation in 076: `lower(btrim(name))` is an arbitrary function of the name.
- JSON beyond the rule shapes: an object with both `conditions` and `field` counts as a group, and only condition and action values that are payee ids are told apart.
- PostgreSQL's working precision: the quotient in 059 is exact before it is rounded once.
- Date columns: dates before 0001-01-01, and card days configured as null, are not dates here; a null day means the card is not billed.
- Order and wording of the chain guard's messages; `load_revisions` is taken as given, with its non-empty ids.
- HTML parsing, URL resolution, request headers other than `authorization`, and `Vary`: a response carries its document's asset references, each with the URL it resolves to.
- Service-worker updates and messages; `cache.delete` and `cache.keys` do not fail. The caches are values that steps replace, not objects shared between handlers.
- Wildcards and white space in `unicode-range`: the printer writes neither.
- Font files, glyph outlines and the generated stylesheet.
- Key derivation, duplicate keys in a ring and the counts `rotate_data` returns; its list of pending changes is kept per table.
- Non-string JSON values in bank credentials.
- Filename and checksum patterns, UTF-8 decoding and the sorted order of the verifier's rows.
- Size limits, CSV headers and Unicode digits of growth exports; report comparison.
- Floating-point rounding of the report validator's tolerance test, which is computed exactly; the division it compares with may round.
- The rest of the backend and the user interface.

# Verified model of facts-tool

facts-tool extracts C++ facts into SQLite databases, keeps them fresh incrementally, and ships scripts around that
core: a batch runner, an OpenAPI bundler and an import checker for its Python package. This project models the
parts where a mistake would be silent, and proves what they promise.

| file | what it models |
|---|---|
| `extraction.dfy`, `extraction_verdicts.dfy`, `freshness.dfy` | extraction runs interleaved with file edits; every verdict of a run, forced runs included; the freshness verdict and its memo |
| `tables.dfy`, `pointer_batch.dfy`, `fact_operations.dfy`, `fact_storage.dfy` | the fact tables with keys, cascades and counts; relation facts and pointer calls, statement by statement |
| `fact_rows.dfy` | what the stored rows hold, column by column, and which calls are linked to external symbols |
| `fact_failures.dfy`, `fact_runs.dfy` | what an operation leaves that stops half way inside a transaction; whole runs with begin, commit, rollback and lost transactions |
| `clone_refresh.dfy`, `refresh_failures.dfy`, `refresh_storage.dfy` | dropping the facts of files whose clone moved: the statements, every place to stop, the operation |
| `transactions.dfy`, `storage_transactions.dfy` | transactions, savepoints and bulk statements under every failure; the storage's own transaction |
| `symbol_ids.dfy`, `fact_store.dfy` | allocation of symbol ids; the cache of ids by USR over whole runs |
| `symbol_flags.dfy` | packed flags, their columns, merging of repeated saves, the flag migration |
| `file_manager.dfy`, `path_identity.dfy` | the file-id cache with scoped clones; component ownership and file identities |
| `import_upsert.dfy` | reimporting a configuration over existing index states |
| `probe_key.dfy` | the driver probe key and the probe memory |
| `loading.dfy`, `bundling.dfy`, `bundling_outcomes.dfy`, `bundling_siblings.dfy` | JSON pointers (RFC 6901) and the multi-file `$ref` bundler: what it says, when it succeeds, what becomes of discriminator mappings |
| `extra_arguments.dfy` | shell-like splitting of extra compiler arguments |
| `batch.dfy` | the bounded-concurrency batch runner with signals and retry |
| `import_cycles.dfy` | the import graph and the cycle search |
| `text.dfy` | text helpers shared by the above |

Objects whose methods change fields are classes here, with methods proved against functions of the old state;
`*` stands for what the program cannot decide: SQLite refusing a statement, a signal, a child's exit status. A ghost
counter of faults, where there is one, tells a refusal by SQLite from one by the program.
`dafny verify dfyconfig.toml` checks everything.

## Findings

Where a promise does not hold of the code, the code is modelled as it is and the exact condition is proved.

- Recording index state falls back to a fresh stat for a file that was not observed before the parse
  (src/commands/Extract.cpp:154-162). A file that is missing while it is observed, comes back, is parsed and is
  edited again before it is recorded is later judged up to date with facts of an older version.
  `Extraction.PreparedExactly` gives the condition on one record, `Extraction.SafeExactlyWhenObserved` the one that
  holds whatever happens around it, `Extraction.VanishingSourceIsWronglyFresh` the run, and `Extraction.JudgedExactly`
  says when the next run judges a source wrongly fresh: exactly if every file of its closure on disk has a fresh row
  and its facts are of other versions.
- After a COMMIT that fails because SQLite rolled back by itself (or a ROLLBACK that reports an error after it took
  effect), `Storage` holds on to a finished transaction: every later begin, commit and rollback is refused and bulk
  statements stay non-atomic (`StorageTransactions.Run`, `StorageTransactions.CommitThenRun`,
  `FactRuns.WedgedForGood`), so that an operation that stops leaves what it did without any commit
  (`FactRuns.LostStopMiscounts`). `FactStore` does not clear its USR cache then. From that moment on a USR is looked up
  rightly exactly if it was stored when the transaction began, or the store gave no id for it since, until it is
  stored again (`FactStoreCache.AfterLostCommit`, `FactStoreCache.SavedAfterLoss`); all answers right after the loss
  are right exactly if every USR given since begin was stored at begin (`FactStoreCache.AllRightAfterLoss`).
  `FactStoreCache.LostCommitAnswersWrongly` is such a run of four calls.
- `addRelationFacts` accepts pointer-call relations, which bypasses the pointer-call rows
  (`FactRuns.GeneralBatchCanDisagree`). Rows and sites still agree exactly if the rows already name every pointer
  site of the batch and every pointer relation of it is already stored (`FactFailures.RelationFactsAgreeExactly`).
- Inside the storage's transaction bulk statements are not atomic, so that an operation that fails leaves what it did
  before the fault, and a commit keeps it. Foreign keys survive every stop, and contexts every stop but that of a
  clone refresh (`FactRuns.RunsKeepIntegrity`, `FactRuns.RunsKeepContexts`); counts need not
  (`FactRuns.CommittedStopMiscounts`). For every operation and every place to stop, the exact condition is given
  under which a count and the agreement of pointer calls survive (`FactFailures.CountSurvivesExactly`,
  `FactFailures.PointerCountSurvivesExactly`, `FactFailures.PartialPointersAgreeExactly`,
  `FactFailures.PartialClearAgreesExactly`, all of them in `FactRuns.StepKeepsExactly`).
- A clone refresh clears a receiver but leaves its certainty, so that a site keeps a valid context exactly if its
  receiver did not move (`CloneRefresh.ContextSurvivesExactly`), and it takes no count again: a relation that stays is
  still counted exactly if none of its sites was in a moved file (`CloneRefresh.CountSurvivesExactly`). The whole
  agreement of pointer calls survives exactly if every pointer site whose relation stays lay outside the moved files
  (`RefreshFailures.RefreshAgreesExactly`). `RefreshFailures.RefreshDisturbs` has sound tables on which a refresh leaves
  a wrong count and a broken context; the same conditions at every place where a refresh can stop are
  `RefreshFailures.RefreshCountExactly`, `RefreshFailures.RefreshPointersExactly` and
  `RefreshFailures.RefreshContextsExactly`.
- The bundler keeps a key that stands beside the reference of an alias entry, and shows it through every other
  reference to the same target (`BundlingSiblings.SiblingShows`, with two documents in
  `BundlingSiblings.SiblingsShowThrough`). For a scalar the bundle says there what the documents say exactly if the
  target reaches that scalar and nothing deeper (`BundlingSiblings.SiblingAgreesExactly`). Aliases are spelled without
  escaping, which names the component exactly if category and name hold no slash, `~0` or `~1`
  (`Bundling.AliasNamesItself`).
- An import that names a file twice, changed and then unchanged, wipes the index state although the command ends up
  as it was (`ImportUpsert.TakenBackStillWipes`).

## Model

| member | source | states |
|---|---|---|
| Extraction.KeepsInv | skeletons/facts-tool/src/commands/Extract.cpp:179-350 | every step of a run, and every edit, deletion, git commit or wiped state in between, keeps: recorded time <= parsed version <= version on disk, for closures computed from what was read; a file that is looked at afresh for its record must be unedited since the parse |
| Extraction.JudgedFreshIsFresh | skeletons/facts-tool/src/commands/ExtractionFreshness.cpp:65-146 | over all runs from an empty registry, with one source set per output, a source judged up to date has committed facts parsed from exactly the versions now discovered and observed, for every file of its closure |
| Extraction.UpToDateIsFresh | skeletons/facts-tool/src/commands/ExtractionFreshness.cpp:113-144 | the same in one state: the discovered closure of a source judged up to date is the parsed one, version by version |
| Extraction.PreparedExactly | skeletons/facts-tool/src/commands/Extract.cpp:154-166 | preparing one record claims no version newer than a parsed one exactly if the file was observed before the parse or has not been edited since it |
| Extraction.SafeExactlyWhenObserved | skeletons/facts-tool/src/commands/Extract.cpp:129-177 | a record is safe under all surrounding events exactly if the file was observed before the parse, or no parse read it |
| Extraction.VanishingSourceIsWronglyFresh | skeletons/facts-tool/src/commands/Extract.cpp:154-166 | a concrete run in which the fallback stat makes an outdated source look up to date |
| Extraction.UndisturbedRunSettles | skeletons/facts-tool/src/commands/Extract.cpp:208-350 | from any state between runs, an undisturbed run that ends leaves every source with current facts and matching records |
| Extraction.SettledMeansNothingStale | skeletons/facts-tool/src/commands/Extract.cpp:236-241 | after that, the next undisturbed unforced run finds nothing stale |
| Extraction.JudgedExactly | skeletons/facts-tool/src/commands/ExtractionFreshness.cpp:65-146 | from any state between runs, the next undisturbed unforced run judges a source up to date exactly if every file of its closure on disk has a fresh row, and wrongly so exactly if, besides, its facts are of other versions |
| ExtractionVerdicts.VerdictsExactly | skeletons/facts-tool/src/commands/ExtractionFreshness.cpp:25-46 | in every run, whatever happens around it, each verdict was given at one look at the file: forced in a forced run, unavailable when its row cannot be read, and otherwise the first rule broken by row, commit and time as they were then, or none; the time kept is the one on disk then |
| ExtractionVerdicts.LookDecides | skeletons/facts-tool/src/commands/ExtractionFreshness.cpp:91-146 | the one look at a file decides the verdict that the partition uses |
| ExtractionVerdicts.NamesFirstBroken | skeletons/facts-tool/src/commands/ExtractionFreshness.cpp:65-89 | the reason is the first broken rule in the order of the rules |
| ExtractionVerdicts.ForcedRunParsesAll | skeletons/facts-tool/src/commands/ExtractionFreshness.cpp:31-36 | in a forced run every verdict is that it was forced, every selected source is stale, and the next step parses all of them |
| ExtractionVerdicts.ForcedRunReplacesAll | skeletons/facts-tool/src/commands/Extract.cpp:243-325 | a forced run that commits replaces the facts of every selected source by what it parsed, leaves those of other sources, and marks the files of all closures |
| ExtractionVerdicts.UnavailableIsStale | skeletons/facts-tool/src/commands/ExtractionFreshness.cpp:37-39 | a row that cannot be read makes every source with the file in its closure stale |
| ExtractionVerdicts.UnsettledIsStale | skeletons/facts-tool/src/commands/ExtractionFreshness.cpp:65-89 | after an edit, a git commit that is not the recorded one, or a wiped index state, the next undisturbed unforced run finds every source stale that has the file in its closure |
| ExtractionVerdicts.RunRecordsExactly | skeletons/facts-tool/src/commands/Extract.cpp:129-177 | a run ends by writing for every marked file, and no other, the record prepared for it: the output, the commit of that moment, and the time observed before the parse or, without one, that of that moment |
| ExtractionVerdicts.AbandonedLeaves | skeletons/facts-tool/src/commands/Extract.cpp:256-333 | a run that gives up before its commit leaves facts and rows as they were, but for rows wiped by others |
| Freshness.PartitionSources | skeletons/facts-tool/src/commands/ExtractionFreshness.cpp:91-146 | the memoized loop splits the sources as the unmemoized verdict does, every source into its part (by the files discovered for it, or itself when discovery did not see it), explains each stale one by its first stale file, keeps every observed time, and asks for no file twice |
| Freshness.FilesToMark | skeletons/facts-tool/src/commands/Extract.cpp:95-112 | exactly the files of the stale closures, each once, in the order first seen |
| Extraction.LoopsMatchSteps | skeletons/facts-tool/src/commands/ExtractionFreshness.cpp:91-146 | the sources that the partition loop lists as stale and the files listed for marking are the stale sources and marks of the run |
| Freshness.FirstSeenMembers | skeletons/facts-tool/src/commands/Extract.cpp:105-109 | first-seen order drops repetitions and no file |
| PointerBatch.LatestIsLast | skeletons/facts-tool/src/storage/PointerCallSite.cpp:19-31 | reverse, stable sort and unique leave exactly the last observation of each key, in key order |
| PointerBatch.SameLastsSameBatch | skeletons/facts-tool/src/storage/PointerCallSite.cpp:19-31 | batches with the same last observations reduce to the same list |
| FactTables.UpsertedContext | skeletons/facts-tool/src/analysis/callgraph/RelationSiteContextStore.cpp:18-42 | a stored site has the one context all its observations agree on, or a possible receiver if they disagree, in any order |
| FactTables.UpsertedKeys | skeletons/facts-tool/src/analysis/callgraph/RelationSiteContextStore.cpp:18-42 | the upsert stores every given site under its key, removes none, and leaves other sites alone |
| FactTables.InsertedKeys | skeletons/facts-tool/src/storage/Relation.cpp:9-26 | insert-if-absent adds every given relation and changes none that was there |
| FactStorage.Storage.AddRelations | skeletons/facts-tool/src/storage/Relation.cpp:9-26 | stores the batch exactly if both symbols of every relation exist; a failure on its own changes nothing, inside the storage transaction or after a lost one it leaves a prefix |
| FactStorage.Storage.InsertRelationSites | skeletons/facts-tool/src/analysis/callgraph/RelationSiteContextStore.cpp:18-42 | stores the batch exactly if contexts are valid, relations exist and every receiver of a site not stored yet is known; a failure on its own changes nothing, inside the storage transaction or after a lost one it leaves a prefix |
| FactStorage.Storage.RecomputeRelationCounts | skeletons/facts-tool/src/storage/RelationSite.cpp:75-91 | recounts exactly the relations named, or none, or a prefix inside the storage transaction or after a lost one |
| FactStorage.Storage.StoreFacts | skeletons/facts-tool/src/storage/RelationSite.cpp:113-115 | rows, sites and counts in order: all of them, or up to the first statement that fails |
| FactStorage.Storage.AddRelationFacts | skeletons/facts-tool/src/storage/RelationSite.cpp:101-129 | succeeds only on valid batches that resolve, and then stores, counts and links external calls; a failure on its own, the commit included, changes nothing; inside the storage transaction, and after a lost one, it is a step that stops at the fault |
| FactStorage.Storage.AddUseFacts | skeletons/facts-tool/src/storage/RelationSite.cpp:54-65 | the same for use facts, with their stricter validation |
| FactStorage.Storage.StorePointers | skeletons/facts-tool/src/storage/PointerCallSite.cpp:78-120 | the six statements in order over the reduced batch, up to the first that fails |
| FactStorage.Storage.AddPointerCallSites | skeletons/facts-tool/src/storage/PointerCallSite.cpp:49-121 | the whole new state of the tables; without a database fault, the commit included, it succeeds exactly on acceptable batches; a failure on its own changes nothing, inside the storage transaction and after a lost one it stops at the fault |
| FactStorage.Storage.ClearPointerCallSites | skeletons/facts-tool/src/storage/PointerCallSite.cpp:123-141 | removes the pointer relations and rows of the callers with their cascades, or changes nothing, or stops at the fault inside the storage transaction and after a lost one |
| FactStorage.SourcesOf | skeletons/facts-tool/src/storage/PointerCallSite.cpp:63-66 | the callers of the batch in ascending order, each once |
| FactOperations.RelationFactsCounts | skeletons/facts-tool/src/storage/RelationSite.cpp:101-129 | after a batch every relation it names is counted, and any other counted relation still is |
| FactOperations.ElsewhereUntouched | skeletons/facts-tool/src/storage/RelationSite.cpp:45-52 | because sites belong to named relations, rows and sites of other relations are untouched |
| FactOperations.RelationFactsIntegrity | skeletons/facts-tool/src/storage/Schema.h:216-277 | no foreign key dangles after a batch |
| FactRows.RelationFactsRows | skeletons/facts-tool/src/storage/RelationSite.cpp:101-129 | after a batch, relations and sites are those there were and those of the batch, with the flags and the place of their first mention; the linked calls are exactly those linked before and every stored call to a symbol that is external or has no definition; nothing else changes |
| FactRows.PartialFactsRows | skeletons/facts-tool/src/storage/RelationSite.cpp:101-129 | the same for the part that is through wherever a batch stops; a batch that stops links no call |
| FactRows.UseFactsRows | skeletons/facts-tool/src/storage/RelationSite.cpp:54-65 | use facts add only relations and sites of the kind of uses, between symbols |
| FactRows.UseFactsExactly | skeletons/facts-tool/src/storage/RelationSite.cpp:54-65 | use facts are accepted exactly if the same facts are accepted as general ones and every relation is a use between symbols |
| FactRows.ValidExactly | skeletons/facts-tool/src/storage/RelationSite.cpp:33-43 | validation lets through exactly what makes a valid row with a valid context |
| FactOperations.PointerFactsCounts | skeletons/facts-tool/src/storage/PointerCallSite.cpp:101-120 | a counted relation stays counted while it exists although only the callers' relations are recounted, and all of those are counted |
| FactOperations.PointerFactsNamed | skeletons/facts-tool/src/storage/PointerCallSite.cpp:49-121 | each target of a last observation has its site and a counted relation in use |
| FactOperations.PointerFactsAgree | skeletons/facts-tool/src/storage/PointerCallSite.cpp:49-121 | afterwards a kind-24 site exists exactly when its pointer-call row names the target, and every kind-24 relation is counted with at least one site |
| FactOperations.PointerFactsIntegrity | skeletons/facts-tool/src/storage/Schema.h:216-304 | no foreign key dangles after a batch of pointer calls |
| FactRows.PointerFactsRows | skeletons/facts-tool/src/storage/PointerCallSite.cpp:84-97 | after a batch the row of every observed call site has target, line, column, signature and expression of its last observation, and every other row is the old one |
| FactRows.PartialPointersRows | skeletons/facts-tool/src/storage/PointerCallSite.cpp:78-100 | wherever a batch stops, the rows written say what was last observed and the others are as they were |
| FactRows.PointerFactsPlaces | skeletons/facts-tool/src/storage/PointerCallSite.cpp:33-46 | from agreeing tables, the kind-24 site of an observed target stands where it was last observed, without receiver, and a new kind-24 relation has no access |
| FactOperations.OnlyLastObservationsMatter | skeletons/facts-tool/src/storage/PointerCallSite.cpp:19-31 | a repeated key acts as its last observation alone |
| FactOperations.ClearedPointersKeep | skeletons/facts-tool/src/storage/PointerCallSite.cpp:123-141 | clearing callers keeps foreign keys, counts and the agreement |
| FactOperations.DropSymbolsKeep | skeletons/facts-tool/src/storage/Schema.h:216-302 | so does deleting symbols with all cascades, when no receiver elsewhere refers to them |
| FactFailures.PartialFactsIntegrity | skeletons/facts-tool/src/storage/RelationSite.cpp:101-129 | no foreign key dangles wherever a batch of general facts stops |
| FactFailures.PartialFactsContexts | skeletons/facts-tool/src/storage/RelationSite.cpp:101-129 | stored contexts stay valid wherever it stops |
| FactFailures.CountSurvivesExactly | skeletons/facts-tool/src/storage/RelationSite.cpp:75-129 | a count that was right is right after the stop exactly if it was recounted, or all sites placed so far were there, or the new relation came with as many sites as its count says |
| FactFailures.PartialFactsAgreeExactly | skeletons/facts-tool/src/storage/RelationSite.cpp:101-129 | rows and pointer sites agree after the stop exactly if the part that took effect respects the rows |
| FactFailures.RelationFactsAgreeExactly | skeletons/facts-tool/src/storage/RelationSite.cpp:33-52 | a whole general batch keeps the agreement exactly if the rows name all its pointer sites and its pointer relations are stored |
| FactFailures.PartialPointersIntegrity | skeletons/facts-tool/src/storage/PointerCallSite.cpp:78-120 | no foreign key dangles wherever a batch of pointer calls stops |
| FactFailures.PartialPointersContexts | skeletons/facts-tool/src/storage/PointerCallSite.cpp:78-120 | stored contexts stay valid wherever it stops |
| FactFailures.PointerCountSurvivesExactly | skeletons/facts-tool/src/storage/PointerCallSite.cpp:101-120 | a count that was right is right after the stop exactly if the caller was recounted, or the relation lost as many sites as it gained, or is new with one site |
| FactFailures.PartialPointersMatchExactly | skeletons/facts-tool/src/storage/PointerCallSite.cpp:78-100 | pointer rows and sites match after the stop exactly if every row written has its site and no row is left whose site is deleted |
| FactFailures.PartialPointersAgreeExactly | skeletons/facts-tool/src/storage/PointerCallSite.cpp:78-120 | the full agreement survives exactly if, besides, every pointer relation has a right count and none is left empty |
| FactFailures.PartialClearKeeps | skeletons/facts-tool/src/storage/PointerCallSite.cpp:123-141 | foreign keys, contexts and counts survive wherever clearing stops |
| FactFailures.PartialClearAgreesExactly | skeletons/facts-tool/src/storage/PointerCallSite.cpp:123-141 | the agreement survives exactly if no row that names a target is left for a caller whose relations are gone |
| FactRuns.StepKeepsExactly | skeletons/facts-tool/src/storage/Storage.cpp:118-139 | for every operation and stop, on its own, inside a transaction and after a lost one: a count, the agreement or the contexts that held still hold exactly if the condition of the step holds |
| FactRuns.RunsKeep | skeletons/facts-tool/src/storage/Storage.cpp:61-101 | over whole runs, lost transactions included, what held at first holds while every step is harmless, is kept in the snapshot, and is back after a rollback or a loss |
| FactRuns.FirstHarmBreaks | skeletons/facts-tool/src/storage/Storage.cpp:61-101 | the first step whose condition fails breaks it, so no weaker condition would do |
| FactRuns.RunsKeepIntegrity | skeletons/facts-tool/src/storage/Schema.h:216-302 | no run leaves a dangling foreign key, whatever stops on the way and whether it is committed, rolled back or lost |
| FactRuns.RunsKeepRows | skeletons/facts-tool/src/storage/RelationSite.cpp:33-43 | no run stores a site of a kind without sites, without its symbols, its file or its place, nor a pointer call without its caller, place, signature or expression, wherever its operations stop |
| FactRuns.RunsKeepCounts | skeletons/facts-tool/src/storage/RelationSite.cpp:75-129 | over every run of operations, refreshes, stops, begins, commits, rollbacks and lost transactions: foreign keys hold, and a relation counted at first is counted whenever it exists until a step that its count does not survive, and again after the rollback |
| FactRuns.RunsKeepPointers | skeletons/facts-tool/src/storage/PointerCallSite.cpp:49-141 | over every such run, pointer-call rows and kind-24 sites keep agreeing until a general batch, a refresh or a stop that breaks the exact condition of its step, and agree again after the rollback |
| FactRuns.RunsKeepContexts | skeletons/facts-tool/src/analysis/callgraph/RelationSiteContextStore.cpp:10-42 | over every such run, stored contexts stay valid until a refresh reaches the receiver of a site that stays; without a refresh they stay valid, committed stops included |
| FactRuns.EverySoundRun | skeletons/facts-tool/src/storage/Schema.h:216-302 | starting from empty fact tables: foreign keys hold after every run, contexts after every run without a refresh, all counts after every run without a refresh or a stop, and a count, the agreement and the contexts after every run of steps harmless to them |
| FactRuns.GeneralBatchCanDisagree | skeletons/facts-tool/src/storage/RelationSite.cpp:33-43 | a general batch with a pointer-call relation is accepted and breaks the agreement |
| FactRuns.CommittedStopMiscounts | skeletons/facts-tool/src/storage/Storage.cpp:118-139 | a transaction that commits after a stopped batch keeps a wrong count, for any relation inserted with a count |
| FactRuns.WedgedForGood | skeletons/facts-tool/src/storage/Storage.cpp:61-101 | after a lost transaction no run opens another, so that every later stop takes effect |
| FactRuns.LostStopMiscounts | skeletons/facts-tool/src/storage/Storage.cpp:118-139 | after a lost transaction a stopped batch keeps a wrong count without any commit, for any relation inserted with a count |
| RefreshStorage.RefreshCloneFiles | skeletons/facts-tool/src/storage/CloneRefresh.cpp:57-83 | wants a transaction, refuses before any write, or leaves exactly the rows outside the moved files; on a fault half way it is a stop of the run and foreign keys still hold |
| RefreshStorage.ClearFiles | skeletons/facts-tool/src/storage/CloneRefresh.cpp:27-55 | the nested loops of statements and files reach the final tables; only the database itself can stop them, and then exactly the statements and files before are through |
| CloneRefresh.StatementsLeaveExactly | skeletons/facts-tool/src/storage/CloneRefresh.cpp:32-43 | the cascading statements leave exactly the rows whose files and symbols have not moved, with moved receivers cleared |
| CloneRefresh.ExaminedStep | skeletons/facts-tool/src/storage/CloneRefresh.cpp:11-25 | one row of the check: the first row of a selected file decides; builtin files and foreign identities are refused |
| CloneRefresh.SelectedEndOnSnapshotPath | skeletons/facts-tool/src/storage/CloneRefresh.cpp:49-53 | every selected file with aliases and a stored identity ends on the row's path in the same universe |
| CloneRefresh.OnlyAliasesMove | skeletons/facts-tool/src/storage/CloneRefresh.cpp:11-25 | a file gets another path only if it is selected and stored under an alias of a row of its own, in that row's universe, and then that row's path |
| CloneRefresh.AcceptableExactly | skeletons/facts-tool/src/storage/CloneRefresh.cpp:11-25 | a row stands for a file exactly if the file is real and the row has no aliases, the file no stored identity, or one under a name of the row in its universe |
| CloneRefresh.RefreshSettles | skeletons/facts-tool/src/storage/CloneRefresh.cpp:57-83 | repeating the refresh is accepted and changes nothing |
| CloneRefresh.RefreshKeepsSitesAndCalls | skeletons/facts-tool/src/storage/CloneRefresh.cpp:27-44 | pointer-call rows and kind-24 sites of the moved files go together, so that each site still has its row and each row its site; the whole agreement is that of RefreshAgreesExactly |
| CloneRefresh.CountSurvivesExactly | skeletons/facts-tool/src/storage/CloneRefresh.cpp:32-43 | a remaining relation is still counted exactly if none of its sites was in a moved file |
| CloneRefresh.ContextSurvivesExactly | skeletons/facts-tool/src/storage/CloneRefresh.cpp:29-34 | a remaining site keeps a valid context exactly if its receiver did not move |
| RefreshFailures.PartialRefreshLeaves | skeletons/facts-tool/src/storage/CloneRefresh.cpp:27-55 | wherever a refresh stops, relations, sites and pointer calls are exactly those whose files and symbols the statements have not reached |
| RefreshFailures.PartialRefreshIntegrity | skeletons/facts-tool/src/storage/CloneRefresh.cpp:27-55 | no foreign key dangles wherever it stops, because receivers are cleared before their symbols go |
| RefreshFailures.RefreshCountExactly | skeletons/facts-tool/src/storage/CloneRefresh.cpp:32-43 | at every stop, a count that was right is right exactly if the relation is gone or none of its sites was reached |
| RefreshFailures.RefreshPointersExactly | skeletons/facts-tool/src/storage/CloneRefresh.cpp:32-43 | at every stop, the full agreement of pointer calls survives exactly if no pointer site whose relation stays was reached |
| RefreshFailures.RefreshContextsExactly | skeletons/facts-tool/src/storage/CloneRefresh.cpp:29-34 | at every stop, contexts stay valid exactly if no site that stays had its receiver reached |
| RefreshFailures.RefreshAgreesExactly | skeletons/facts-tool/src/storage/CloneRefresh.cpp:27-55 | after a whole refresh rows and kind-24 sites agree, with counted relations in use, exactly if every pointer site whose relation stays lay outside the moved files |
| RefreshFailures.RefreshDisturbs | skeletons/facts-tool/src/storage/CloneRefresh.cpp:27-55 | sound tables that a refresh leaves with a wrong count and an invalid context |
| Transactions.RunPreparedBulk | skeletons/facts-tool/src/storage/SqliteDatabase.h:136-173 | stores and counts every input, or stops at a prefix: on a fault, a refused input or a full counter |
| Transactions.ExecuteBulk | skeletons/facts-tool/src/storage/SqliteDatabase.h:233-252 | an atomic bulk that fails at any point leaves the contents as on entry, standalone and inside a transaction; a non-atomic one leaves a prefix; a fault is one of the database |
| Transactions.RefusedStays | skeletons/facts-tool/src/storage/SqliteDatabase.h:143-172 | inputs after a failing prefix cannot repair it |
| Transactions.BulkScope.Start | skeletons/facts-tool/src/storage/SqliteDatabase.h:61-74 | opens nothing, a savepoint in a running transaction, or a transaction that guards the state on entry; it fails only if the database refuses |
| Transactions.BulkScope.Complete | skeletons/facts-tool/src/storage/SqliteDatabase.h:100-111 | keeps what was done, or can still undo it, or already has |
| Transactions.BulkScope.Destroy | skeletons/facts-tool/src/storage/SqliteDatabase.h:86-98 | an unfinished scope restores the state on entry unless the database refuses even that |
| Transactions.Transaction.Commit | skeletons/facts-tool/src/storage/Sqlite.cpp:195-206 | terminal transactions change nothing; an active one is committed exactly if the database does not refuse, and otherwise is still active or has been rolled back |
| Transactions.Transaction.Rollback | skeletons/facts-tool/src/storage/Sqlite.cpp:208-217 | terminal transactions change nothing; an active one is rolled back if the database does not refuse, and otherwise the snapshot is back or it is still active |
| Transactions.Transaction.Move | skeletons/facts-tool/src/storage/Sqlite.cpp:173-175 | a moved-from transaction is terminal and no longer knows the connection |
| Transactions.Transaction.Assign | skeletons/facts-tool/src/storage/Sqlite.cpp:177-187 | move assignment undoes the transaction it replaces and takes over the other |
| StorageTransactions.Storage.Begin | skeletons/facts-tool/src/storage/Storage.cpp:61-79 | starts one transaction with nested atomicity off, or leaves everything as it was; it succeeds exactly if there is no transaction and the database refuses nothing |
| StorageTransactions.Storage.Commit | skeletons/facts-tool/src/storage/Storage.cpp:81-90 | ends the transaction exactly if it is running and the database does not refuse, or keeps it; it is kept in a finished state exactly if the database rolled back by itself |
| StorageTransactions.Storage.Rollback | skeletons/facts-tool/src/storage/Storage.cpp:92-101 | succeeds exactly if the transaction is running and the database does not refuse; then the contents before begin are back and the storage is idle |
| StorageTransactions.Storage.Write | skeletons/facts-tool/src/storage/Storage.cpp:118-139 | a write operation on its own happens completely or not at all; inside a transaction it leaves that transaction open |
| StorageTransactions.Run | skeletons/facts-tool/src/storage/Storage.cpp:61-133 | over every script there is a log of answers, each true exactly if the storage took or let go of its transaction by that command; a storage with a finished transaction accepts no begin, commit or rollback, and a running one keeps its snapshot |
| StorageTransactions.BeginRunRollback | skeletons/facts-tool/src/storage/Storage.cpp:61-101 | begin, any operations, then a successful rollback restore the contents before begin, with nested atomicity off in between |
| StorageTransactions.CommitThenRun | skeletons/facts-tool/src/storage/Storage.cpp:81-90 | after a commit lost to an automatic rollback the log of any later script has no begin, commit or rollback accepted |
| SymbolIds.PackingRoundTrip | skeletons/facts-tool/src/storage/Sqlite.cpp:124-131 | packing two 32-bit halves into 64 bits is invertible both ways |
| SymbolIds.NewIdIsFresh | skeletons/facts-tool/src/storage/SymbolAllocation.h:15-39 | a new id is not null, not a compiler type, not in use and was never allocated before, deletions included |
| SymbolIds.BuiltinIdIsFresh | skeletons/facts-tool/src/storage/SymbolAllocation.h:19-24 | in the builtin file this holds even when the allocator row is missing |
| SymbolIds.NewIdIsLeast | skeletons/facts-tool/src/storage/SymbolAllocation.h:15-26 | no index is skipped: the new one is the least that the allocator has not passed and, in the builtin file, that lies above the compiler's types and all rows |
| SymbolIds.Storage.AllocateSymbolId | skeletons/facts-tool/src/storage/SymbolAllocation.h:15-39 | the id was not issued before on this history, has the least index that may be next, and is refused exactly if that does not fit 32 bits |
| SymbolIds.Storage.SaveSymbol | skeletons/facts-tool/src/storage/Symbol.cpp:180-234 | a stored USR keeps its id and the tables; a new one gets a fresh id; USR and id stay one to one; without a fault it succeeds exactly if there is a USR and it has an id or an index is left; a failure on its own changes nothing, inside a transaction or after a lost one no row but that of the USR appears |
| SymbolIds.Storage.SaveReturnType | skeletons/facts-tool/src/storage/ReturnType.cpp:9-55 | without a fault it succeeds exactly if both ends are there, or the target is a compiler type that can get its reserved row under its own USR, and that row is then the one change of the symbols; a failure on its own changes nothing |
| SymbolIds.Run | skeletons/facts-tool/src/storage/Symbol.cpp:180-234 | every script, lost transactions included, is a run from the old state to the new one with one answer per command; new ids that were not undone are handed out for good, and ids are kept apart as TraceKeepsIds says |
| SymbolIds.TraceKeepsIds | skeletons/facts-tool/src/storage/Symbol.cpp:180-234 | over every run of saves, deletions and transactions: a new id is not null, reserved or handed out before; new ids differ unless the earlier was rolled back in between, whatever was deleted; a USR saved again has its id again unless that save was rolled back or rows were deleted in between |
| SymbolIds.Remains | skeletons/facts-tool/src/storage/Symbol.cpp:180-234 | what a save did is still there at every later moment, and in the snapshot of any later transaction, unless it was undone or deleted |
| SymbolIds.WedgedStays | skeletons/facts-tool/src/storage/Storage.cpp:61-101 | after a lost transaction no later command of a run opens another |
| FactStoreCache.FactStore.FindId | skeletons/facts-tool/src/storage/FactStore.cpp:52-93 | a cached USR is answered from the cache, any other from the rows unless the database faults, and a found id is cached; unless a transaction was lost, the answer is what the rows say |
| FactStoreCache.FactStore.Rollback | skeletons/facts-tool/src/storage/FactStore.cpp:33-39 | a success brings the contents before begin back and forgets everything cached; otherwise nothing changes, or the transaction is lost and the cache stays |
| FactStoreCache.FactStore.Save | skeletons/facts-tool/src/storage/FactStore.h:133-150 | a saved USR is cached under the id it is stored under, no row goes and no other USR appears |
| FactStoreCache.FactStore.Load | skeletons/facts-tool/src/storage/FactStore.h:174-180 | a row that is there is loaded unless the database faults, and cached under its own USR, and nothing else is |
| FactStoreCache.RightAfterLoss | skeletons/facts-tool/src/storage/FactStore.cpp:19-39 | right after the database undid the transaction, a USR is answered rightly exactly if it was stored at begin or the store gave no id for it since |
| FactStoreCache.AfterLostCommit | skeletons/facts-tool/src/storage/FactStore.cpp:19-39 | over every run of saves, loads, lookups and transactions: at any moment after a lost commit, a lookup of a USR not stored again is right exactly if the USR was stored at begin or the store gave no id for it while the transaction was open |
| FactStoreCache.AllRightAfterLoss | skeletons/facts-tool/src/storage/FactStore.cpp:19-39 | all answers right after the loss are right exactly if every USR given since begin was stored at begin |
| FactStoreCache.SavedAfterLoss | skeletons/facts-tool/src/storage/FactStore.h:133-150 | saving a USR again after the loss puts its later answers right |
| FactStoreCache.LostCommitAnswersWrongly | skeletons/facts-tool/src/storage/FactStore.cpp:25-31 | a concrete run, begin, save, lost commit, lookup, whose last answer is an id that no row has |
| FactStoreCache.Run | skeletons/facts-tool/src/storage/FactStore.cpp:19-93 | every script on the store is such a run from the old state to the new one, with one answer per command |
| SymbolFlags.FlagsRoundTrip | skeletons/facts-tool/src/storage/SemanticProperties.h:185-237 | flags survive the columns exactly if bits 26 and up are clear and the ref-qualifier is not 3 |
| SymbolFlags.PropertiesRoundTrip | skeletons/facts-tool/src/storage/SemanticProperties.h:185-237 | every row is what its flags unpack to |
| SymbolFlags.MigrationKeepsFlags | skeletons/facts-tool/src/storage/SchemaMigration.cpp:68-92 | the migration decodes the flags column like the program does, up to the later volatile flag |
| SymbolFlags.LoadedBit | skeletons/facts-tool/src/storage/Symbol.cpp:32-63 | after any saves of one USR a boolean flag is loaded exactly if some save had it, the external one exactly if all had it |
| SymbolFlags.StoredChoices | skeletons/facts-tool/src/storage/Symbol.cpp:36-60 | access, ref-qualifier and constant evaluation are the last other than none; the location is the first |
| SymbolFlags.OrderDoesNotMatter | skeletons/facts-tool/src/storage/Symbol.cpp:32-63 | boolean flags do not depend on the order or number of saves |
| FileManagerCache.FileManager.GetId | skeletons/facts-tool/src/storage/FileManager.cpp:148-217 | the cached two-spelling lookup answers what the uncached one would, and keeps the found id and, within a revision, all others |
| FileManagerCache.FoundExactly | skeletons/facts-tool/src/storage/FileManager.cpp:187-217 | a file is found exactly if the caller's spelling leads to it, or leads nowhere and what it resolves to leads to it |
| FileManagerCache.FileManager.AddBulk | skeletons/facts-tool/src/storage/FileManager.cpp:113-119 | registering more files keeps the cache right and registered ids as they are |
| FileManagerCache.FileManager.SwitchActiveClone | skeletons/facts-tool/src/storage/FileManager.cpp:126-131 | switching the default clone keeps the cache right by forgetting it |
| FileManagerCache.MoreFiles | skeletons/facts-tool/src/storage/FileManager.cpp:180-185 | only found ids are cached, so new files cannot make an entry wrong |
| FileManagerCache.CloneContext.Leave | skeletons/facts-tool/src/storage/CloneContext.cpp:18-22 | leaving a scope brings back the selection before it under a revision never used before |
| FileManagerCache.Run | skeletons/facts-tool/src/storage/FileManager.cpp:113-217 | over every script of lookups, registrations, switches and nested clone scopes there is a log of registry and selection, linked from the old state to the new one by each command and its answer, and every lookup answers what the uncached one would at its moment |
| PathIdentity.OwnsExactlyItsNames | skeletons/facts-tool/src/storage/ProjectConfiguration.cpp:19-32 | the string comparison holds exactly if the root's names are the first names of the source |
| PathIdentity.SelectOwningComponent | skeletons/facts-tool/src/storage/ProjectConfiguration.cpp:62-83 | finds an owner if there is one, with the longest key, the first on ties |
| PathIdentity.ChosenIsDeepest | skeletons/facts-tool/src/storage/ProjectConfiguration.cpp:71-81 | longest key means most names: the chosen component is the first deepest owner |
| PathIdentity.IdentifyFile | skeletons/facts-tool/src/storage/FileIdentity.cpp:94-115 | the name and directory cut out of the normalized source text are the part below the chosen component, and absent exactly if there is none |
| PathIdentity.RelativeIsBelow | skeletons/facts-tool/src/storage/FileIdentity.cpp:102-115 | the text operations (relative text, filename, parent path) give the names between root and source and the last one |
| PathIdentity.IdentifyFiles | skeletons/facts-tool/src/storage/FileIdentity.cpp:117-132 | the identities of the sources that have one, in order; others are skipped |
| PathIdentity.IdentitiesDiffer | skeletons/facts-tool/src/storage/FileIdentity.cpp:117-132 | the list holds no identity twice when sources and component ids are distinct, and only identities of sources |
| PathIdentity.IdentifiedExactly | skeletons/facts-tool/src/storage/FileIdentity.cpp:102-109 | an owned source is identified exactly if it has no trailing slash and is not its owner's root |
| PathIdentity.IdentityLeadsBack | skeletons/facts-tool/src/storage/ProjectConfiguration.cpp:53-60 | the full path of an identity is the normalized source again |
| PathIdentity.IdentitiesAreDistinct | skeletons/facts-tool/src/storage/FileIdentity.cpp:94-115 | different sources have different identities |
| PathIdentity.NormalIsNormal | skeletons/facts-tool/src/storage/FileIdentity.cpp:14-21 | normalizing an absolute path twice is normalizing it once |
| PathIdentity.DoubleDotTakesBack | skeletons/facts-tool/src/storage/FileIdentity.cpp:14-21 | a double dot takes the name before it back and does nothing at the top; dots and doubled slashes do nothing |
| PathIdentity.AbsoluteStands | skeletons/facts-tool/src/storage/ProjectConfiguration.cpp:53-60 | an absolute directory or name in a full project path stands for itself |
| ImportUpsert.FileDatabase.ReplaceProjectConfiguration | skeletons/facts-tool/src/storage/FileDatabase.cpp:246-397 | an import stores the batch in order against the commands before it, or changes nothing; new files are stored as NewFileStored says |
| ImportUpsert.IndexStateKeptExactly | skeletons/facts-tool/src/storage/FileDatabase.cpp:331-393 | for any batch, duplicates included, a named row's index state is kept whole or wiped whole; it is kept exactly if its override is preserved or no file of the batch changes its command |
| ImportUpsert.OthersUntouched | skeletons/facts-tool/src/storage/FileDatabase.cpp:359-393 | files not named, and other repositories, are untouched |
| ImportUpsert.CommandAfterImport | skeletons/facts-tool/src/storage/FileDatabase.cpp:360-368 | the command is the preserved override or that of the last file of the batch |
| ImportUpsert.KeptMeansSameCommand | skeletons/facts-tool/src/storage/FileDatabase.cpp:322-345 | a kept index state goes with an unchanged command |
| ImportUpsert.NewFileStored | skeletons/facts-tool/src/storage/FileDatabase.cpp:355-393 | a named file that was not stored is stored afterwards with driver, working directory and options of the last file that names it, no override, and nothing indexed, duplicates included |
| ImportUpsert.FilesAfterImport | skeletons/facts-tool/src/storage/FileDatabase.cpp:355-393 | the files stored afterwards are those stored before and those named |
| ImportUpsert.Validate | skeletons/facts-tool/src/storage/ProjectConfiguration.cpp:85-129 | the loops find no problem exactly if the configuration is valid, and otherwise name one that it has |
| ImportUpsert.TakenBackStillWipes | skeletons/facts-tool/src/storage/FileDatabase.cpp:331-345 | a change that the same batch takes back still wipes the state |
| ProbeKey.DriverProbeKey | skeletons/facts-tool/src/platform/DriverProbeKey.cpp:62-96 | the stream written field by field is the key text |
| ProbeKey.FieldsInjective | skeletons/facts-tool/src/platform/DriverProbeKey.cpp:14-16 | a list of length-prefixed fields, of any length, is determined by its text |
| ProbeKey.KeyTextInjective | skeletons/facts-tool/src/platform/DriverProbeKey.cpp:80-95 | equal key texts mean equal driver, file, size, time, directory and options, and each environment variable of the key set to the same value in both or in neither, unset told apart from empty |
| ProbeKey.MemoryKeyInjective | skeletons/facts-tool/src/platform/DriverIncludes.cpp:213-217 | equal memory keys mean equal cache setting, database and probe key |
| ProbeKey.ProbeMemory.Find | skeletons/facts-tool/src/platform/DriverIncludes.cpp:227-235 | what is in memory under the request's key is found, and was remembered for this very request |
| ProbeKey.ProbeMemory.RememberIncludes | skeletons/facts-tool/src/platform/DriverIncludes.cpp:219-225 | nothing goes while there is room, a full memory gives up its smallest key, and an entry that is there wins over the new one |
| Loading.Pointer | skeletons/facts-tool/scripts/openapi_codegen/loading.py:34-46 | the loop finds what the pointer's keys lead to, or fails exactly when they lead nowhere |
| Loading.ChildOfList | skeletons/facts-tool/scripts/openapi_codegen/loading.py:34-46 | a key of a list picks the item at its number, counted from the end when negative, and nothing beyond either end |
| Loading.KeysOfPointer | skeletons/facts-tool/scripts/openapi_codegen/loading.py:40-41 | splitting and unescaping undo the spelling of RFC 6901, section 3, for all keys |
| Bundling.SameLeaves | skeletons/facts-tool/scripts/openapi_codegen/bundling.py:35-73 | along every key path, resolving references on the way, the bundle reaches a leaf exactly if the documents do; values beside an alias entry reference hold no reference, and the target reaches below their keys exactly what they do |
| Bundling.NothingNew | skeletons/facts-tool/scripts/openapi_codegen/bundling.py:35-73 | the bundle reaches nothing that the documents do not reach, when keys of any kind beside alias references say nothing that their targets do not say |
| Bundling.Forward | skeletons/facts-tool/scripts/openapi_codegen/bundling.py:35-71 | the simulation from the documents into the bundle, for every value, trail and position of the walk |
| Bundling.Backward | skeletons/facts-tool/scripts/openapi_codegen/bundling.py:35-71 | the simulation back from the bundle into the documents |
| Bundling.AliasNamesItself | skeletons/facts-tool/scripts/openapi_codegen/bundling.py:32-33 | the unescaped alias text leads back to its component exactly if category and name hold no slash and no escape |
| BundlingSiblings.SiblingShows | skeletons/facts-tool/scripts/openapi_codegen/bundling.py:58-71 | in any documents, a reference that becomes one to an alias shows every key beside the alias entry reference that it lacks itself, walked in place |
| BundlingSiblings.SiblingAgreesExactly | skeletons/facts-tool/scripts/openapi_codegen/bundling.py:58-71 | there bundle and documents agree along every path through a scalar key exactly if the target reaches that scalar and nothing deeper |
| BundlingSiblings.SiblingsShowThrough | skeletons/facts-tool/scripts/openapi_codegen/bundling.py:58-71 | two concrete documents whose bundle reaches a leaf the documents do not, through a key beside an alias entry's reference |
| Bundling.OnlyLocal | skeletons/facts-tool/scripts/openapi_codegen/bundling.py:57-71 | every reference of the bundle is local exactly if every discriminator mapping that the walk reaches and shows has only local references below its entries and no external text under `$ref` |
| Bundling.BuildAliases | skeletons/facts-tool/scripts/openapi_codegen/bundling.py:21-33 | it succeeds exactly if every component's reference is a text that can be located when it leaves the document; then every alias names a component that refers to its target, no such component is missed, and of several aliases of one target the last one visited is kept |
| Bundling.Bundle | skeletons/facts-tool/scripts/openapi_codegen/bundling.py:18-86 | it succeeds exactly if the root loads, the aliases can be collected, the walk raises no error and every reference of the result resolves; the result is the walk of the root document; it ends because each inlined target joins the trail |
| BundlingOutcomes.WalkSucceedsExactly | skeletons/facts-tool/scripts/openapi_codegen/bundling.py:35-73 | the walk fails exactly if one of the values it visits, along items, fields and inlined targets, has a reference that is no text, cannot be located, leads nowhere, to no object or back to what is being inlined, or a mapping entry that cannot be located |
| BundlingOutcomes.MappingsRedirected | skeletons/facts-tool/scripts/openapi_codegen/bundling.py:40-50 | wherever the walk meets a discriminator mapping its keys stay; an entry whose target lies in the root document becomes a local reference to the same place, one whose target a component stands for becomes that component's spelling, and every other entry stands unchanged |
| BundlingOutcomes.RootMappingsRedirected | skeletons/facts-tool/scripts/openapi_codegen/bundling.py:40-50 | in the bundle, a mapping that the root document reaches through objects stands where it stood, redirected like that |
| BundlingOutcomes.VerifiesExactly | skeletons/facts-tool/scripts/openapi_codegen/bundling.py:75-86 | the final verification passes exactly if every reference anywhere in the bundle leads to something in it |
| BundlingOutcomes.PlainLookup | skeletons/facts-tool/scripts/openapi_codegen/loading.py:34-46 | where no reference is in the way, the lookup that defines what documents reach is the pointer of the same keys |
| ExtraArguments.TokenizeExtraArgument | skeletons/facts-tool/src/commands/ExtraArguments.h:11-58 | the character loop computes the automaton's result |
| ExtraArguments.TokenizesExactlyTheGrammar | skeletons/facts-tool/src/commands/ExtraArguments.h:11-58 | it succeeds exactly on the texts of a grammar of blanks, plain, escaped, single- and double-quoted pieces, and gives the words they spell |
| ExtraArguments.FailsExactlyWhenLeftOpen | skeletons/facts-tool/src/commands/ExtraArguments.h:50-53 | it fails exactly on texts that end inside a quote or after an escaping backslash |
| ExtraArguments.QuotingRoundTrip | skeletons/facts-tool/src/commands/ExtraArguments.h:11-58 | quoting any tokens, empty ones included, and joining them by blanks tokenizes back to them |
| ExtraArguments.TokenizeExtraArguments | skeletons/facts-tool/src/commands/ExtraArguments.h:60-71 | all tokens in order, or the first argument that fails |
| ExtraArguments.QuotingRoundTripAll | skeletons/facts-tool/src/commands/ExtraArguments.h:60-71 | the round trip when the tokens are spread over several arguments |
| ExtraArguments.AllSplitIfEach | skeletons/facts-tool/src/commands/ExtraArguments.h:60-71 | all arguments are split exactly if each can be, and otherwise the first failing one is reported |
| Batch.Runner.RunBatch | skeletons/facts-tool/scripts/facts_batch_run.py:29-90 | for every schedule: it ends with a launch error exactly if a start was refused; otherwise nothing stays active, every launched source is finished and counted once and listed at most once, and without a signal the exit code is 0 exactly if every last attempt returned 0 |
| Batch.Runner.Popen | skeletons/facts-tool/scripts/facts_batch_run.py:36-62 | a child is only ever started while fewer than the allowed number are active, and never after a signal |
| Batch.Runner.PollAll | skeletons/facts-tool/scripts/facts_batch_run.py:63-71 | one look at every child that was active ends some or uses up patience, and adds exactly the failed ones with their own statuses |
| Batch.Runner.ReapAll | skeletons/facts-tool/scripts/facts_batch_run.py:74-78 | after a signal every child left is finished and listed, with its own status or 128 plus the signal |
| Batch.Runner.RetryLocked | skeletons/facts-tool/scripts/facts_batch_retry.py:10-48 | the retry touches only failed sources and leaves the status of every other: each is kept once, or was tried again and succeeded; without a signal exactly those are tried, once, whose logs speak of a locked database; it gives up exactly if a start is refused |
| Batch.Runner.WaitRetry | skeletons/facts-tool/scripts/facts_batch_retry.py:51-58 | waiting for the retried child ends under every schedule; after a signal it is looked at once more and then ended by force, and never before one |
| Batch.Runner.Cleanup | skeletons/facts-tool/scripts/facts_batch_process.py:46-51 | whatever happened before, no child is left active |
| Batch.Concluded | skeletons/facts-tool/scripts/facts_batch_run.py:85-90 | at the end the count is the number of sources launched, and an empty failure list means all succeeded |
| ImportCycles.Search.FindCycle | skeletons/facts-tool/python/scripts/check_import_boundaries.py:40-62 | returns an empty list exactly if the graph has no cycle, and otherwise a closed walk along edges |
| ImportCycles.Search.Visit | skeletons/facts-tool/python/scripts/check_import_boundaries.py:44-56 | ends because the active walk grows; completes the node in post order or returns a cycle |
| ImportCycles.OrderedIsAcyclic | skeletons/facts-tool/python/scripts/check_import_boundaries.py:44-56 | a graph whose nodes can be listed after their children has no cycle |
| ImportCycles.Dependencies | skeletons/facts-tool/python/scripts/check_import_boundaries.py:24-37 | the edges are exactly the imports between modules of the package |

## Left out

- SQLite itself: locking, busy timeouts, I/O and recovery. Tables are maps with snapshots; a statement fails
  nondeterministically or through its constraints. Automatic rollback is modelled for COMMIT and ROLLBACK only.
- Transactions.ExecuteBulk: claims nothing about the contents once the database refuses a ROLLBACK or ROLLBACK TO and
  leaves the transaction open, because the program cannot undo then.
- Extraction.JudgedFreshIsFresh: leaves out runs in which a file that was not observed before the parse is edited
  between its parse and its record; with them it is false, and `Extraction.PreparedExactly` has the exact condition.
  Runs of different source sets into one output, concurrent runs and imports during a run are not covered: a record
  belongs to a file, not to a source.
- Modification times are whole numbers that grow with every edit, and git commits are given per file; clock
  resolution and libgit2 are not modelled.
- Clang, the AST cache, and what the parse stores are outside; a parse is the set of file versions it read.
- Of the fact tables, those for templates, parameters and call-graph runs are not modelled; a write operation's deletion
  of call-graph entries appears only in `StorageTransactions`.
- beginSymbolRefresh and finishSymbolRefresh are represented by deleting any set of symbols.
- FactStoreCache.FactStore.FindId: no symbol deletion happens between lookups, as in the program's own runs.
- FileManagerCache.FileManager.GetId: the file system is fixed, how a place is derived from an identity is a
  parameter, and revisions do not wrap around; replacing the configuration and activating addClone are excluded.
- PathIdentity.IdentifyFile: component roots are given as effective, normalized, absolute roots and sources as
  absolute paths; versions, clone anchoring and canonicalization through the file system are not modelled.
- ImportUpsert.FileDatabase.ReplaceProjectConfiguration: repositories, clones, components and directories are not
  tables here; validation guarantees the rows a file needs.
- ProbeKey.DriverProbeKey: the failures of canonicalizing and reading the driver's file, the hash, resolving relative
  options and the probe itself are left out; keys are ordered by characters, not bytes.
- Bundling.SameLeaves: assumes that alias names hold no slash and no escape, that no reference leads into a
  discriminator mapping, and that values beside alias references agree with the target and hold no reference
  themselves. For values with references in them only `Bundling.NothingNew` and `BundlingSiblings.SiblingShows` hold:
  such a value may refer to the very key that it hides, so that following it in the bundle need not end although the
  documents agree.
- Bundling.Forward: assumes the same of the values beside alias references.
- Bundling.BuildAliases: the order in which components are visited is left open, because objects have no order here;
  which of several aliases of one target is the last therefore is as well.
- Bundling.Bundle: percent-decoding is left out, Python's int() is a parameter, documents are the finite map of the
  files that load, and objects have no order of their own: components are visited in some order.
- Batch.Runner.RunBatch: every child ends after finitely many looks; which logs speak of a locked database is given,
  not read; command lines, output names, the output lock and printing are left out.
- ImportCycles.Dependencies: parsing the modules and resolving relative import targets are left out.
- SymbolFlags.LoadedBit: a 32-bit word is the set of its bit positions; the parameter and relation flags, symbol kinds
  and the rest of the migration chain are left out as easier copies.
- Server, HTTP, the REST client, the command line, logging, timing and the legacy tools.

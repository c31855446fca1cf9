# OpenArch: models of its caches, protocols, parsers and accounting

OpenArch is a local code-governance tool. Its metrics rest on machinery that has to agree with
something slower or survive something unpleasant: an incremental scan that must equal a full one, a
shard-by-shard publication and a directory swap that may stop half way, parsers of git's output,
a budget allocator, a union-find over similar files, and an editor that rewrites one line of a user's
configuration. This project models that machinery in Dafny and proves what it promises.

Most main results are equivalences: where the code meets its promise only under a condition, the
condition is stated as something one can check on the input and proved to be exact, with a lemma for a
failing input where one helps. The methods keep the shape of the code (loops, mutable maps, state on
disk); each is proved against a function or predicate, and the lemmas speak about those. What such a function
computes is stated once more without it, on the inputs alone, so that a slip in function and method
together would not go through.

## Modules

| file | models |
|---|---|
| `Seqs`, `Lines`, `Decimal`, `OrderStatistics` | shared vocabulary: lists, line splitting and joining, numerals, percentiles |
| `ScanIncremental` | one incremental run over a baseline, publication step by step, crashes and convergence |
| `Scan` | the scan procedures: change sets, parsing, entries, edges, the baseline store, the choice of path |
| `ScanRuns` | sequences of scans over one store: stops, the identity check, refusal, recovery and convergence |
| `ScanChains` | scans of one tree after another, with late resolutions already on file and edits between stops |
| `BaselineGeneration` | publishing a complete generation by renaming, left-over backups |
| `BlockSimilarity` | MinHash banding and the enumeration of candidate block pairs |
| `Components`, `UnionFind`, `DefinitionSurface` | linked files, the compressing union-find, and the similarity groups |
| `EvolutionEvidence` | the round-robin event budget, the co-change budget and the verdicts |
| `GitBlobBatch` | the decoder of `git cat-file --batch` streams |
| `DiffHunks` | the parser of unified-0 diffs and the printer it inverts |
| `ChangeSet` | the name-status parser and the memo over change sets |
| `SwapDirectory`, `SkillSwap` | directories changed by renaming under throws and stops; installing a skill tree by swapping |
| `ConfigAudit` | the configuration audit and its event log |
| `BlockEdit`, `GovernancePersistence`, `PersistenceSetting` | setting `governance.persistence` in place |
| `BlockIndex`, `SimilarityAccounting`, `ChargedLines`, `SizeDispersion` | test-suite similarity buckets, their evidence, what both charge by line, and size dispersion |
| `DefinitionCandidates` | definition-heavy files by percentile |
| `ChangeSurface`, `DossierFacts`, `SurfaceProjections`, `ImpactPlan` | the classification of symbol evidence and what is derived from it |

## Findings

Where the code and its own comments or documentation disagree, the model follows the code.

- A stopped incremental publication does not recover by itself. Over a baseline that mirrors a tree every
  publication step changes the shards, so as soon as one step is through and the new index is not, the
  store's identity check refuses every further incremental scan, whatever is edited in between, until a
  full scan is made (`ScanRuns.RerunIsRefusedIff`, `RefusedStays`, `FullScanRecovers`). The comment at
  `scanIncremental.ts:94-99` relies on comparing hashes again, which only happens in a store without an
  identity. There it is not unconditional either: a consumer that is parsed only because something it
  imports changed, and that also has an import which resolves for the first time, is lost if the process
  stops after the changed files are written (`ScanRuns.ScansConvergeIff`, `StoppedScanLosesConsumer`), and
  a file removed between the stop and the rerun can stay imported (`ScanChains.StopThenDeleteDangles`).
- A full publication that stops after promoting the new generation and before removing the old one leaves
  a backup that no later full scan removes. `BaselineStoreAccess.ts:80-82` then refuses every shard write
  and asks for a full scan, which does not help (`BaselineGeneration.StopBlocksShardWrites`).
- A deleted file that imported a changed or deleted one fails the incremental run
  (`ScanIncremental.RunFailsIff`), and a baseline entry without a hash outlives its file
  (`ScanIncremental.GhostEntriesIff`).
- The comment at `testBloatMetrics.ts:475` says the evidence explains only charged lines. It also keeps
  case-body blocks, so it adds up to the score exactly when there are none
  (`SimilarityAccounting.EvidenceExplainsScore`).
- `changeSurface.ts:39` calls the symbol consumers a subset of the static bound. That holds exactly when
  every reference found to a changed declaration comes from the file itself or a static consumer
  (`ChangeSurface.WithinBoundIff`); one common file is enough for the evidence to count as symbol-level
  (`SymbolsCanExceedTheBound`).
- The memo key of `changeSet.ts:83-84` is the same for no path and for one empty path
  (`ChangeSet.SharedKeyIff`, `EmptyPathIsStale`).
- Rewriting the governance block twice inserts a second line exactly when the first rewrite inserted
  next to children indented by one character (`GovernancePersistence.RewriteIdempotentIff`).
- The hunk parser drops the hunks of deleted files (`DiffHunks.RunDeletedFile`). Of the other files it gets
  a diff right exactly when no file name has a space or needs quoting by git, no removed line starts with
  two dashes and a space, no added line starts with two pluses and a space, and no line ends in a carriage
  return (`DiffHunks.HunkRoundTripIff`); in a file with CRLF line ends every line loses its carriage return.
- The directory swap loses the installed tree exactly when the promotion and the roll back both throw
  and everything else succeeds (`SkillSwap.SwapOverInstalled`). Recovery restores the newest backup exactly
  when all older ones sort before it (`SkillSwap.RestoresNewestIff`); names start with the process number and
  sort as text, and two backups are reachable (`SkillSwap.NamesDecide`, `RecoveryCanPickTheOlder`).

## Model

| member | source | states |
|---|---|---|
| ScanIncremental.UnchangedFacts | packages/core/src/application/scanIncremental.ts:80-85 | an unchanged file none of whose imports was deleted has the same facts in the old and the new tree iff no import of it resolves late |
| ScanIncremental.RecordsIff | packages/core/src/application/baselineEntry.ts:62-95 | the facts a parse yields are exactly those that record the file item by item: one import per raw import whose target is in the tree and one re-export per such import that re-exports, both in order, as out-degree the number of all raw imports, and the kind, hash and metrics of the file |
| ScanIncremental.RecordedTargets | packages/core/src/application/baselineEntry.ts:73-81 | of recorded facts, a target is a re-export iff it is in the tree and some raw import of the file re-exports it, and an import iff it is in the tree and imported at all |
| ScanIncremental.CleanBaseline | packages/core/src/application/scanIncremental.ts:33-40 | over a baseline that mirrors a tree, the detector finds exactly the new and edited files, the deleted files, and the direct importers of touched and of deleted files |
| ScanIncremental.RunFailsIff | packages/core/src/application/scanIncremental.ts:74-79 | the run can parse its list iff no deleted file imported a changed or deleted one |
| ScanIncremental.IncrementalRefinesFull | packages/core/src/application/scanIncremental.ts:45-88 | the run's paths are the current paths, and its shards equal a full scan iff no file it did not parse has an import that resolves only now |
| ScanIncremental.GhostEntriesIff | packages/core/src/application/scanIncremental.ts:38 | from any shards, the run's paths are exactly the current ones iff every entry whose file is gone has a hash |
| ScanIncremental.PlanCompletes | packages/core/src/application/scanIncremental.ts:100-115 | any order of writes (changed files first) and deletes, carried out to the end, leaves the result of the run |
| ScanIncremental.MixedIsKept | packages/core/src/application/scanIncremental.ts:94-115 | on shards, for a store that lets the run start: a run stopped after any publication step keeps: every shard old or new, no surviving file without a shard, deletes only after all writes |
| ScanIncremental.RunsStayMixed | packages/core/src/application/scanIncremental.ts:94-115 | on shards: the same after any number of stopped runs that the store lets start |
| ScanIncremental.MixedConverges | packages/core/src/application/scanIncremental.ts:94-115 | on shards: one complete run that the store lets start ends like the uninterrupted run |
| ScanIncremental.CrashConvergence | packages/core/src/application/scanIncremental.ts:94-115 | on shards, without an identity check: all sequences of stopped runs converge after one complete run iff no consumer of a touched file, unchanged and without deleted imports, resolves an import late |
| ScanIncremental.UnsettledConsumerIsLost | packages/core/src/application/scanIncremental.ts:94-115 | on shards, without an identity check: otherwise every plan loses that consumer when the process stops right after the changed files are written |
| ScanIncremental.DeletesMustComeLast | packages/core/src/application/scanIncremental.ts:109-115 | were deletes published first, a stop after them would hide the importers of deleted files from every later run |
| Scan.ProjectionIsFull | packages/core/src/application/scanEntries.ts:21-47 | projecting a freshly parsed file gives the facts of a full scan, which `ScanIncremental.RecordsIff` says item by item |
| Scan.ProjectionRecords | packages/core/src/application/baselineEntry.ts:62-95 | the entry projected for a parsed file records it: imports, re-exports, out-degree and metrics are those of its raw imports and text |
| Scan.IncrementalChangeSet | packages/core/src/application/scanIncremental.ts:33-40 | the two lists contain exactly the changed and the deleted paths of the model |
| Scan.BuildReverseIndex | packages/core/src/application/scanIncremental.ts:67-73 | the index lists a consumer under a dependency iff its baseline imports it |
| Scan.PrepareIncrementalScan | packages/core/src/application/scanIncremental.ts:45-88 | no baseline hashes at all, a failed parse, or: parsed paths with the changed ones first, reused paths disjoint from them, the deleted paths, and edges that are the import relation of the run's result |
| Scan.ParseAll | packages/core/src/application/scanIncremental.ts:75-79 | parsing succeeds iff every path exists, one tree a path, in order |
| Scan.EdgesAre | packages/core/src/application/scanIncremental.ts:83-86 | edges from reused imports and new trees together are the import relation of the result |
| Scan.ComputeEntries | packages/core/src/application/scanEntries.ts:76-103 | reused entries as they are, then one new entry a parsed file that records its imports, re-exports, out-degree and metrics, and the P95 branch inputs of both kinds |
| Scan.BranchInputsAre | packages/core/src/application/scanEntries.ts:74-102 | the P95 branch inputs are one a production file, in order: its largest function, and without it nothing for a reused entry and all branches for a parsed one |
| Scan.BranchPopulationAgrees | packages/core/src/application/scanEntries.ts:74-102 | for reused entries of current files, older versions included, the P95 branch population equals the one a full scan measures for the same files iff every reused production entry has its largest function or a fresh parse counts nothing for it |
| Scan.GraphsAgreeIff | packages/core/src/application/scan.ts:168-173 | the incremental edge map equals the production graph iff all files are production files |
| Scan.ProductionEdgeIff | packages/core/src/application/scan.ts:168-173 | over a full scan the production graph has an edge iff a production file imports a production file of the tree |
| Scan.PreparedIsPlan | packages/core/src/application/scanIncremental.ts:107-112 | what a prepared run publishes is a plan of the run, one write a parsed file, and the published index describes the run's result |
| Scan.Storage.DeleteFileMetrics | packages/core/src/application/scanIncremental.ts:113-115 | shards are removed one by one until the steps run out |
| Scan.Storage.PublishIncrementalEntries | packages/core/src/application/scanIncremental.ts:100-127 | the state after any number of steps is the model's, and the index is written only after all of them |
| Scan.Storage.WriteShards | packages/core/src/application/scanIncremental.ts:109-112 | the shard writes up to the step where the process stops |
| Scan.RunFull | packages/core/src/application/scan.ts:161-163 | a full run replaces the generation by the full scan and its index, or does nothing; that one step stands for the renames of `BaselineGeneration` |
| Scan.RunPrepared | packages/core/src/application/scan.ts:192-216 | a prepared run is the publication of a plan, cut after the steps the process survives; after the last one the index describes exactly the entries on file |
| Scan.RunScan | packages/core/src/application/scan.ts:119-216 | the outcome for every store, refusals by the identity check and by a pending recovery included, and what each outcome leaves on file; `Scan.OutcomeIff` and `Scan.ScanFiles` say both without the functions of the model |
| Scan.OutcomeIff | packages/core/src/application/scan.ts:119-216 | when a scan is empty, failed, a short circuit or full, each iff its condition on the tree, the hashes and imports on file, the index and the store |
| Scan.ParsesIff | packages/core/src/application/scanIncremental.ts:67-74 | a file is parsed iff its text differs from the recorded one or it is on record as direct importer of a file that differs or is gone |
| Scan.ScanFiles | packages/core/src/application/scan.ts:119-216 | wherever a scan stops every shard is an old one or records its file, re-exports, out-degree and metrics included; a full scan that ends records all files, an incremental one exactly those it parses, drops the deleted ones and keeps the rest |
| ScanRuns.EveryStepShows | packages/core/src/application/scanIncremental.ts:100-115 | over a baseline that mirrors a tree, the shards after any number of steps of any plan equal the old ones iff no step was made or there was nothing to publish |
| ScanRuns.RerunIsRefusedIff | packages/core/src/adapter/storage/BaselineGenerationValidation.ts:49-56 | after a first scan over the shards of a tree the next incremental scan fails iff the store checks identities, an index was on file, and the stop fell between the first step and the new index |
| ScanRuns.RefusedStays | packages/core/src/application/scan.ts:123-129 | once the identity has drifted, every incremental scan of any non-empty tree fails and changes nothing, edits in between or not |
| ScanRuns.FullScanRecovers | packages/core/src/application/scan.ts:118-129 | a full scan that gets its step through mirrors its tree whatever was on file, and the next incremental scan of it has nothing to do |
| ScanRuns.ScansStayGuarded | packages/core/src/application/scan.ts:119-216 | with the identity check or a pending recovery, over any stopped incremental scans of a tree the store is as before, refused, or complete, and a scan that ends leaves the result of one scan |
| ScanRuns.ScansStayMixed | packages/core/src/application/scan.ts:119-216 | without either, and with settled consumers, no incremental scan ever fails and one that survives leaves the result of one scan |
| ScanRuns.StoppedScanLosesConsumer | packages/core/src/application/scanIncremental.ts:100-127 | without either, every scan that ends after one stopped right behind its changed files has lost an unsettled consumer |
| ScanRuns.ScansConvergeIff | packages/core/src/application/scan.ts:119-216 | whatever scans of a tree are stopped over a baseline that mirrors another, each scan that ends leaves what one scan would have left iff the store checks identities, a recovery is pending, or all consumers are settled |
| ScanChains.ChainFacts | packages/core/src/application/scanIncremental.ts:45-88 | after any chain of complete runs every entry is the one of the tree its file was last parsed in, with unchanged text and no missing import |
| ScanChains.ChainRefinesFull | packages/core/src/application/scanIncremental.ts:45-88 | such a chain ends like a full scan iff no file has an import that resolves now and did not in the tree it was last parsed in |
| ScanChains.CheckedScansStayTraceable | packages/core/src/application/scan.ts:119-216 | with the identity check or a pending recovery, over incremental scans of any trees stopped anywhere, a scan that ends leaves entries recorded for the current texts and no missing import |
| ScanChains.DanglingIff | packages/core/src/application/scanIncremental.ts:74-82 | over any hashed shards a complete run leaves an import of a missing file iff a reused entry imports a path without shard and file |
| ScanChains.StopThenDeleteDangles | packages/core/src/application/scanIncremental.ts:100-115 | without the identity check such an import is left by a stop between an importer and a new file, followed by the removal of that file |
| ScanChains.TraceableBranchesAgree | packages/core/src/application/scanEntries.ts:74-102 | over a baseline of recorded entries, parsers that report the largest function give the P95 branch population of a full scan of the same files |
| BaselineGeneration.RecoverBaseline | packages/core/src/adapter/storage/BaselineGeneration.ts:36-48 | the loop promotes the first valid backup whose renaming does not throw |
| BaselineGeneration.PublishGeneration | packages/core/src/adapter/storage/BaselineGeneration.ts:116-125 | set aside, promote, roll back, remove, step by step under any throws and any stop |
| BaselineGeneration.PublishBaselineSnapshot | packages/core/src/adapter/storage/BaselineGeneration.ts:127-142 | recovery, comparison, staging and publication together |
| BaselineGeneration.PublishOverActive | packages/core/src/adapter/storage/BaselineGeneration.ts:116-142 | at every stop and under all throws the old or the new generation is active, or the old one is in this publication's backup, and no other backup moves |
| BaselineGeneration.ReadersSeeOldOrNewIff | packages/core/src/adapter/storage/BaselineGeneration.ts:22-27 | readers then see the old or the new generation, and with neither active the first backup in falling order, which is the old one iff all older backups sort before it |
| BaselineGeneration.IdleIff | packages/core/src/adapter/storage/BaselineGeneration.ts:127-133 | after recovery a publication changes nothing iff readers see its snapshot already |
| BaselineGeneration.RecoversIff | packages/core/src/adapter/storage/BaselineGeneration.ts:36-48 | an unstopped recovery promotes the first valid backup whose renaming does not throw, however many before it do, and otherwise nothing |
| BaselineGeneration.NothingActiveIff | packages/core/src/adapter/storage/BaselineGeneration.ts:116-125 | an unstopped publication leaves nothing active iff promotion and roll back both throw; if only the promotion throws the old generation is active again |
| BaselineGeneration.StagingIsDropped | packages/core/src/adapter/storage/BaselineGeneration.ts:134-141 | an unstopped publication leaves its staging copy only if it failed and removing the copy threw |
| BaselineGeneration.QuietPublishKeepsBackups | packages/core/src/adapter/storage/BaselineGeneration.ts:127-142 | an undisturbed publication over an active generation ends with the snapshot active and the same backups |
| BaselineGeneration.PendingStaysPending | packages/core/src/adapter/storage/BaselineStoreAccess.ts:78-83 | no number of undisturbed full publications over an active generation changes whether shard writes are refused |
| BaselineGeneration.BackupIsLeftIff | packages/core/src/adapter/storage/BaselineGeneration.ts:116-125 | a publication leaves its backup beside an active generation iff it got as far as the promotion and not through the removal |
| BaselineGeneration.StopBlocksShardWrites | packages/core/src/adapter/storage/BaselineStoreAccess.ts:78-83 | after such a stop shard writes stay refused through any number of full publications |
| BaselineGeneration.QuietPublishRecovers | packages/core/src/adapter/storage/BaselineGeneration.ts:36-48 | without an active generation an undisturbed publication uses up exactly the first valid backup |
| BlockSimilarity.SimilarityBounds | packages/core/src/document-store/DocumentFingerprint.ts:97-101 | similarity is symmetric, between 0 and 1, and 1 on equal non-empty signatures |
| BlockSimilarity.SimilarityIsShare | packages/core/src/document-store/DocumentFingerprint.ts:97-101 | the similarity times the length of the shorter signature is the number of equal positions, and zero on an empty one |
| BlockSimilarity.SharesBucketIff | packages/core/src/document-store/DocumentFingerprint.ts:113-115 | two signatures of any length share a bucket iff they agree on all eight positions of one of the eight bands |
| BlockSimilarity.AddBlock | packages/core/src/application/testBloatMetrics.ts:339-341 | one block is filed under each of its buckets, and nothing else moves |
| BlockSimilarity.IndexBuckets | packages/core/src/application/testBloatMetrics.ts:337-341 | a block is in a bucket iff the bucket is one of its bands, each once |
| BlockSimilarity.CandidatePairs | packages/core/src/application/testBloatMetrics.ts:342-351 | every pair that shares a bucket is enumerated, and none twice |
| BlockSimilarity.PairsOfBlocks | packages/core/src/application/fixtureBoilerplate.ts:119-133 | the enumerated pairs are exactly the pairs of different blocks that share a bucket |
| BlockSimilarity.RepeatedBlocksOf | packages/core/src/application/testBloatMetrics.ts:337-361 | the result is exactly the blocks with a different, similar enough block in a shared bucket, whatever the order of insertion |
| Components.ConnectedTransitive | packages/core/src/application/definitionSurfaceFacts.ts:90-94 | being linked through a chain of files is transitive |
| UnionFind.SameRootIffConnected | packages/core/src/application/definitionSurfaceFacts.ts:80-94 | two files have the same root iff a chain of links joins them |
| UnionFind.RootIsDetermined | packages/core/src/application/definitionSurfaceFacts.ts:80-89 | the parent map alone determines every root |
| UnionFind.CompressedForest | packages/core/src/application/definitionSurfaceFacts.ts:83-86 | pointing a file at its root keeps the forest, with the same roots |
| UnionFind.LinkedForest | packages/core/src/application/definitionSurfaceFacts.ts:93 | linking two roots keeps a forest, so `find` terminates on every reachable parent map |
| UnionFind.MergedComponents | packages/core/src/application/definitionSurfaceFacts.ts:90-94 | merging two roots gives the components of the links with one more |
| UnionFind.DisjointFiles.Find | packages/core/src/application/definitionSurfaceFacts.ts:81-89 | terminates, returns the root, and changes no root while compressing |
| UnionFind.DisjointFiles.Union | packages/core/src/application/definitionSurfaceFacts.ts:90-94 | adds exactly one link to the relation whose components the roots are |
| DefinitionSurface.LinkPairs | packages/core/src/application/definitionSurfaceFacts.ts:99-119 | the links are those of the pairs at or above the threshold, and the similarity kept for two files is the largest of their pairs |
| DefinitionSurface.LinksAreLinked | packages/core/src/application/definitionSurfaceFacts.ts:99-119 | two files are linked iff some bucket-sharing pair of their blocks reaches the threshold |
| DefinitionSurface.GroupByRoot | packages/core/src/application/definitionSurfaceFacts.ts:121-127 | files are grouped by root, in order, each in one group |
| DefinitionSurface.ClassesAreComponents | packages/core/src/application/definitionSurfaceFacts.ts:121-132 | the classes of at least two files are the components of at least two files |
| DefinitionSurface.SimilarityGroups | packages/core/src/application/definitionSurfaceFacts.ts:75-162 | the groups are the components of at least two files under links by similar blocks; each has the largest similarity inside it, and as lines the solid lines of exactly the repeated blocks in its files, each once; over all groups these add up to those of the repeated blocks in grouped files |
| DefinitionSurface.CountsAreUnique | packages/core/src/application/definitionSurfaceFacts.ts:133-139 | that number of lines is determined, whatever the order of the repeated blocks |
| DefinitionSurface.OthersDoNotCount | packages/core/src/application/definitionSurfaceFacts.ts:137 | the lines of a block outside the files never matter |
| DefinitionSurface.GroupLinesAddUp | packages/core/src/application/definitionSurfaceFacts.ts:130-139 | over disjoint groups the lines add up to those of the repeated blocks in all their files, none lost and none counted twice |
| EvolutionEvidence.GreedyIsChoice | packages/core/src/application/evolutionEvidence.ts:97-104 | a candidate's selection is as many distinct events of its own as were asked for, or all |
| EvolutionEvidence.GreedyDiversity | packages/core/src/application/evolutionEvidence.ts:97-104 | the selection has as many different members as possible: a member repeats only when all are used |
| EvolutionEvidence.GreedyTakesFirst | packages/core/src/application/evolutionEvidence.ts:99-100 | every event taken is the first with an unused member, and once all members are used the first one left |
| EvolutionEvidence.FirstChoicesAreUnique | packages/core/src/application/evolutionEvidence.ts:99-100 | a selection that takes the first event every time is determined by its length |
| EvolutionEvidence.Round | packages/core/src/application/evolutionEvidence.ts:93-107 | one round serves the candidates in order until the budget is used up |
| EvolutionEvidence.SelectCoordinationEvents | packages/core/src/application/evolutionEvidence.ts:87-109 | the selection is a water level that uses the whole budget or all events, and every candidate takes the first eligible event every time: unused members first, then what is left |
| EvolutionEvidence.WaterLevelSelections | packages/core/src/application/evolutionEvidence.ts:82-86 | at a water level candidate i holds min of its events and its share, with as many members as possible |
| EvolutionEvidence.FairShares | packages/core/src/application/evolutionEvidence.ts:82-86 | no candidate with events left trails another by more than one, nor an equal or later one at all |
| EvolutionEvidence.WaterLevelIsUnique | packages/core/src/application/evolutionEvidence.ts:87-109 | the total determines how many events each candidate gets |
| EvolutionEvidence.EvidenceVerdicts | packages/core/src/application/evolutionEvidence.ts:69-80 | confirmed, not confirmed and unavailable, each iff its condition on the inspected events |
| EvolutionEvidence.CochangeCommits | packages/core/src/application/evolutionEvidence.ts:207-219 | commits are inspected first come first served, within both caps, and a candidate below its caps has the whole budget used up and later ones nothing |
| EvolutionEvidence.CountFingerprints | packages/core/src/application/evolutionEvidence.ts:172-178 | every non-empty fingerprint is counted as often as it occurs, in the order of first occurrence |
| EvolutionEvidence.InOrderIs | packages/core/src/application/evolutionEvidence.ts:172-178 | the fingerprints are listed in the order in which they first occur |
| EvolutionEvidence.CochangeEvidence | packages/core/src/application/evolutionEvidence.ts:170-195 | the dominant fingerprint occurs most often, among those the first by locale, among equal ones the first to occur; unavailable, partial, aligned and mixed, each iff its condition on the inspected commits |
| GitBlobBatch.BlobHeaderParses | packages/core/src/application/gitBlobBatch.ts:39 | the header of a blob gives its size |
| GitBlobBatch.BlobSizeIff | packages/core/src/application/gitBlobBatch.ts:39 | a header gives a size iff it is 40 to 64 lower-case hex digits, " blob " and at least one digit, and then the number those digits spell |
| GitBlobBatch.StepIs | packages/core/src/application/gitBlobBatch.ts:60-70 | at any offset of any stream the decoder takes exactly an announced content with a NUL behind it, skips a header without a size, and stops where neither is whole |
| GitBlobBatch.MissingIsNoBlob | packages/core/src/application/gitBlobBatch.ts:39 | the reply for a missing object is no blob header, whatever the object was called |
| GitBlobBatch.DecodeInvertsPrint | packages/core/src/application/gitBlobBatch.ts:58-70 | decoding a printed stream gives every blob byte for byte, embedded NULs included |
| GitBlobBatch.TruncationIsSafe | packages/core/src/application/gitBlobBatch.ts:60-70 | decoding any prefix of any stream gives part of the full result and never a wrong text |
| GitBlobBatch.BatchBlobInfo | packages/core/src/application/gitBlobBatch.ts:30-43 | the sizes reported by key are those read from the headers in order |
| GitBlobBatch.ReadContents | packages/core/src/application/gitBlobBatch.ts:58-71 | the loop over the content stream stores exactly the decoded texts and leaves all other keys alone |
| GitBlobBatch.MarkOmitted | packages/core/src/application/gitBlobBatch.ts:47-55 | every request starts without text, and exactly the oversized ones are omitted |
| GitBlobBatch.ReadGitBlobs | packages/core/src/application/gitBlobBatch.ts:46-72 | over any two streams: oversized blobs are omitted, and a text is only ever the one decoded for that request |
| GitBlobBatch.SizesOfRepository | packages/core/src/application/gitBlobBatch.ts:30-43 | over a repository every request gets the size of its object, or none if it is missing |
| GitBlobBatch.ReadRepository | packages/core/src/application/gitBlobBatch.ts:46-72 | over a repository the reader returns the bytes of exactly the stored blobs of at most 524288 bytes, and marks exactly the larger ones as omitted |
| Lines.SplitJoin | packages/core/src/application/governancePersistence.ts:113-114 | splitting inverts joining of lines that stay apart |
| Lines.JoinSplit | packages/core/src/application/governancePersistence.ts:113-140 | joining inverts splitting on uniform line ends |
| Lines.SplitJoinLf | packages/core/src/application/discover.ts:102 | splitting lines joined by line feeds costs every line but the last one a carriage return at its end |
| DiffHunks.HeaderRoundTrip | packages/core/src/application/discover.ts:109 | a printed hunk header gives back both start lines, whether or not the counts are printed |
| DiffHunks.ParseHeaderIff | packages/core/src/application/discover.ts:109 | a line is read as a hunk header iff it starts with one, counts optional, and the numbers are its two start lines |
| DiffHunks.UpdateHunks | packages/core/src/application/discover.ts:98-100 | a hunk is appended to its file, or opens a new one at the end |
| DiffHunks.GitDiffHunks | packages/core/src/application/discover.ts:89-124 | the loop over lines computes the run of the line machine |
| DiffHunks.RunDeletedFile | packages/core/src/application/discover.ts:103-121 | a file without a new side, or without hunks, contributes nothing, whatever its lines contain |
| DiffHunks.LinesRoundTripIff | packages/core/src/application/discover.ts:89-124 | on lines: the parser lists all printed files, hunks, order and start lines iff every surviving file has a readable label, no removed line starting with two dashes and a space, and no added line starting with two pluses and a space |
| DiffHunks.HunkRoundTripIff | packages/core/src/application/discover.ts:81-125 | on the text git prints: the parser returns files, hunks, order and start lines iff, besides, no surviving file has a name with a space or one that git quotes, or a line ending in a carriage return |
| ChangeSet.SplitJoinNul | packages/core/src/application/changeSet.ts:26 | splitting at NUL inverts joining |
| ChangeSet.ParseStatus | packages/core/src/application/changeSet.ts:25-43 | the index loop reads off the statuses of the token list, reads past the end included |
| ChangeSet.NameStatusRoundTrip | packages/core/src/application/changeSet.ts:25-43 | parsing the printed records gives one status each, in order: A as added, D as deleted, R and C as modified with the old path, anything else as modified |
| ChangeSet.TruncationIsPrefix | packages/core/src/application/changeSet.ts:28-41 | any cut of any token list gives a prefix of the statuses, so alignment is never lost |
| ChangeSet.SharedKeyIff | packages/core/src/application/changeSet.ts:83-84 | two requests share a key iff they have the same directory and paths and both or neither ask for staged changes and for change evidence, or the same apart from no path against the empty path |
| ChangeSet.ChangeSets.Collect | packages/core/src/application/changeSet.ts:87-94 | a stored answer wins, a computed one is stored |
| ChangeSet.ChangeSets.Reset | packages/core/src/application/changeSet.ts:79-81 | the memo is empty |
| ChangeSet.MemoAgrees | packages/core/src/application/changeSet.ts:53-94 | over any run with a reset between a change and the next question, and no empty path, every answer is the fresh one |
| ChangeSet.SecondAnswerIff | packages/core/src/application/changeSet.ts:87-94 | without a reset the second answer is fresh iff the keys differ or the computations agree |
| ChangeSet.EmptyPathIsStale | packages/core/src/application/changeSet.ts:83-91 | after a question for no path, the empty path is answered wrongly whenever the two differ |
| SkillSwap.RecoverBackup | packages/openarch-plugin/bin/openarch-agent-install.js:50-66 | the recovery step by step: nothing if installed, otherwise the sort-last backup is moved back, failures swallowed |
| SkillSwap.ReplaceSkillDirectory | packages/core/src/application/agentSkill.ts:56-71 | the swap step by step under any throws and any stop |
| SkillSwap.ReplaceDirectory | packages/openarch-plugin/bin/openarch-agent-install.js:69-87 | recovery and swap together |
| SkillSwap.SwapOverInstalled | packages/openarch-plugin/bin/openarch-agent-install.js:75-86 | at every stop and under all throws: old tree, complete new tree, or the old one in this run's backup, and nothing else moves; nothing is left iff promotion and roll back both throw and the rest succeeds |
| SkillSwap.SwapOverNothing | packages/core/src/application/agentSkill.ts:60-70 | with nothing installed the destination holds the new tree iff copy and promotion went through, and is absent otherwise |
| SwapDirectory.SortLastIsGreatest | packages/openarch-plugin/bin/openarch-agent-install.js:59 | no backup name sorts after the one recovery picks |
| SkillSwap.RecoverState | packages/openarch-plugin/bin/openarch-agent-install.js:50-66 | recovery moves the sort-last backup to an empty destination iff neither of its operations throws or is cut off |
| SwapDirectory.SortLastIff | packages/openarch-plugin/bin/openarch-agent-install.js:59 | a name is picked iff it is listed and every other listed name sorts before it |
| SkillSwap.RestoresIff | packages/openarch-plugin/bin/openarch-agent-install.js:50-66 | with nothing installed an undisturbed recovery restores a backup iff the names of all others sort before it |
| SkillSwap.RestoresNewestIff | packages/openarch-plugin/bin/openarch-agent-install.js:50-87 | after any stopped and failing runs that end with nothing installed, the next undisturbed recovery installs a complete tree, and the newest backup iff the names of all older ones still there sort before it |
| SkillSwap.TwoBackupsAreReachable | packages/openarch-plugin/bin/openarch-agent-install.js:69-87 | a stop, a run whose recovery throws and another stop leave two backups, whatever the names |
| SkillSwap.NamesDecide | packages/openarch-plugin/bin/openarch-agent-install.js:59-72 | the next recovery then restores the newer tree iff the first run's name sorts before the third's, and the older one iff it sorts after |
| SkillSwap.RecoveryCanPickTheOlder | packages/openarch-plugin/bin/openarch-agent-install.js:59-72 | process numbers 9 and 10 are such names |
| SkillSwap.RunsKeep | packages/openarch-plugin/bin/openarch-agent-install.js:69-87 | over any number of stopped and failing runs no half-copied tree is installed or kept as a backup, and an installed tree stays installed or restorable unless promotion and roll back both throw |
| SkillSwap.SmoothRunInstalls | packages/openarch-plugin/bin/openarch-agent-install.js:69-87 | an undisturbed run installs its version from any directory and leaves nothing of its own |
| SkillSwap.OneFaultEndsOldOrNew | packages/core/src/application/agentSkill.ts:60-70 | with at most one throw and no stop the destination is the old or the new tree, and the new one on success |
| SkillSwap.SuccessIff | packages/core/src/application/agentSkill.ts:60-70 | an unstopped swap reports success iff none of its operations throws |
| SkillSwap.OnlyOneRecovers | packages/core/src/application/agentSkill.ts:56-71 | after a stop that left only a backup, a failing copy ends with the backup restored in the plugin and with nothing installed in the project installer |
| ConfigAudit.AuditDirectory.AuditConfig | packages/core/src/application/configAudit.ts:25-60 | the branches, the writes in order, and a stop before any of them |
| ConfigAudit.Audit | packages/core/src/application/configAudit.ts:25-60 | status and both hashes of every outcome, each status iff its condition on configuration, record and mode, and what is on file after a stop between the writes |
| ConfigAudit.CheckReportsDrift | packages/core/src/application/configAudit.ts:45-52 | check mode writes nothing and reports drift iff the configuration's hash is not the recorded one |
| ConfigAudit.RecordSettles | packages/core/src/application/configAudit.ts:45-60 | a finished record is unchanged for every later check and record |
| ConfigAudit.LogExplainsState | packages/core/src/application/configAudit.ts:51-60 | over any edits, checks, records and stops, with a rising clock, events on file lead from the first hash to the stored one in order of time, and every event starts from a hash of that chain |
| ConfigAudit.InitializedExplains | packages/core/src/application/configAudit.ts:45-50 | the first record starts the empty chain |
| ConfigAudit.SameTimeBreaksTheLog | packages/core/src/application/configAudit.ts:56-58 | two records at the same time leave no chain from the first hash |
| BlockEdit.EditsDirectChild | packages/core/src/application/governancePersistence.ts:115-142 | a replaced line is the first direct child of the block with the key; a line is inserted only when no direct child has it |
| BlockEdit.EditTwice | packages/core/src/application/governancePersistence.ts:112-144 | planning after an edit repeats it in place, except iff it inserts again |
| BlockEdit.PlanExtends | packages/core/src/application/governancePersistence.ts:115-137 | a block that is already there is edited the same way when another one is appended |
| GovernancePersistence.LocateBlockEnd | packages/core/src/application/governancePersistence.ts:118-124 | the loop finds the end of the block |
| GovernancePersistence.LocateChildIndent | packages/core/src/application/governancePersistence.ts:125-128 | the loop finds the smallest indent of a non-empty line of the block |
| GovernancePersistence.LocatePersistence | packages/core/src/application/governancePersistence.ts:129-137 | the loop finds the first line with the key at that indent |
| GovernancePersistence.GovernanceLineIff | packages/core/src/application/governancePersistence.ts:115 | a line opens the block iff it is the key at the left margin, blanks, and perhaps a comment |
| GovernancePersistence.PersistenceLineIff | packages/core/src/application/governancePersistence.ts:133 | a line holds the setting iff it is blanks, the key, a value without hash signs, and perhaps a comment |
| GovernancePersistence.RewriteGovernanceBlock | packages/core/src/application/governancePersistence.ts:112-144 | the scan and the edit compute the specified rewriting, or nothing when no block is found |
| GovernancePersistence.PersistenceLineShape | packages/core/src/application/governancePersistence.ts:138-142 | the written line is recognised again at its indent |
| GovernancePersistence.RewriteIsOneEdit | packages/core/src/application/governancePersistence.ts:138-143 | the rewritten text splits into the old lines with one replaced or one inserted |
| GovernancePersistence.RewriteIsFramed | packages/core/src/application/governancePersistence.ts:106-111 | on uniform line ends all other bytes are kept and only a direct child is replaced |
| GovernancePersistence.RewriteIdempotentIff | packages/core/src/application/governancePersistence.ts:112-144 | rewriting twice equals rewriting once iff the first did not insert next to children indented by one |
| GovernancePersistence.AppendIs | packages/core/src/application/governancePersistence.ts:99-104 | appending ends the last line if it is not ended, leaves a blank line and adds the block |
| GovernancePersistence.AppendThenRewriteIff | packages/core/src/application/governancePersistence.ts:99-104 | rewriting right after appending changes nothing iff the text had uniform line ends, did not end in a lone carriage return without other CRLF, and any block found in it before would stay as it is |
| PersistenceSetting.ConfigFile.SetPersistence | packages/core/src/application/governancePersistence.ts:174-201 | every outcome, and the file changes only on the outcome that says so |
| PersistenceSetting.RefusedIff | packages/core/src/application/governancePersistence.ts:174-201 | when the call is refused for which reason, each iff its condition on what the YAML reader and the line scan find |
| PersistenceSetting.ReadsIff | packages/core/src/application/governancePersistence.ts:55-65 | when the setting reads as local and when as tracked; anything else fails |
| PersistenceSetting.SetThenRead | packages/core/src/application/governancePersistence.ts:161-172 | every write is read back as the value set, keeps all other top-level settings, and differs by the appended block or one line |
| PersistenceSetting.SetTwiceIff | packages/core/src/application/governancePersistence.ts:174-201 | the same call again leaves the file alone iff the first append kept the line ends and found no overlooked block to change, or the first rewrite did not insert next to children indented by one |
| BlockIndex.KeyIsUnique | packages/core/src/application/testBloatMetrics.ts:326 | a key names one block of one file, even if the path contains hash signs |
| BlockIndex.FileOfKey | packages/core/src/application/testBloatMetrics.ts:363 | the file of a key is recovered from it |
| BlockIndex.AddEntry | packages/core/src/application/testBloatMetrics.ts:327-330 | a known key keeps its place, a new one is appended |
| BlockIndex.IndexBlocks | packages/core/src/application/testBloatMetrics.ts:315-334 | the index holds the blocks of every file once and counts the lines of every listed file |
| BlockIndex.BlockIff | packages/core/src/application/testBloatMetrics.ts:313-331 | the blocks are exactly the windows of lines of listed files that start a whole number of strides down, with the fingerprint of their text and the number of their lines that are not blank |
| BlockIndex.StrideIs | packages/core/src/application/testBloatMetrics.ts:313 | the stride is half the window, and one below four |
| BlockIndex.TotalLinesIs | packages/core/src/application/testBloatMetrics.ts:322-324 | the denominator is the sum of the line counts of the listed files |
| BlockIndex.OverlapBound | packages/core/src/application/testBloatMetrics.ts:313-334 | the solid lines of all blocks times the stride are at most the window times the lines |
| SimilarityAccounting.Intersects | packages/core/src/test-governance/assertionRecognition.ts:173-176 | the loop decides whether a line range meets a set of lines |
| SimilarityAccounting.MoreEvidenceChargesLess | packages/core/src/test-governance/assertionRecognition.ts:179-189 | recognising more assertion lines or test cases, in any files, never adds a charged line, and which lines hold calls never changes the charged sum |
| SimilarityAccounting.ChargeBlocks | packages/core/src/application/testBloatMetrics.ts:418-435 | the four counters are the four sums over the repeated blocks, which `ChargedLines.ScoreByLines` states by the lines they cover |
| SimilarityAccounting.CollectFiles | packages/core/src/application/testBloatMetrics.ts:416-428 | the two file sets are the files without evidence and without cases |
| SimilarityAccounting.CodeSimilarityBuckets | packages/core/src/application/testBloatMetrics.ts:399-443 | the buckets over exactly the repeated blocks, the denominator and the file counts; `ChargedLines.ScoreByLines` states them by the lines the blocks cover |
| SimilarityAccounting.BucketsCoverAll | packages/core/src/application/testBloatMetrics.ts:430-434 | every line of a repeated block is in exactly one bucket |
| SimilarityAccounting.PartOfAll | packages/core/src/application/testBloatMetrics.ts:418-420 | repeated blocks add up to at most all blocks |
| SimilarityAccounting.SimilarityAccounts | packages/core/src/application/testBloatMetrics.ts:313-334 | the four buckets sum to the repeated lines, which with windows of eight are at most twice the denominator |
| SimilarityAccounting.CodeSimilarityEvidence | packages/core/src/application/testBloatMetrics.ts:462-492 | before the cut: one row a file with shown blocks, its lines, and the first of its longest blocks as sample; `ChargedLines.EvidenceByLines` states it by the lines the blocks cover |
| SimilarityAccounting.ScoreIsDetermined | packages/core/src/application/testBloatMetrics.ts:418-435 | the four sums do not depend on the order in which the repeated blocks were found |
| SimilarityAccounting.EvidenceExplainsScore | packages/core/src/application/testBloatMetrics.ts:462-494 | for the score and the evidence computed by two calls the rows add up to the charged plus the case-body lines, hence to the charged lines iff there are no case-body lines |
| ChargedLines.VerdictIs | packages/core/src/test-governance/assertionRecognition.ts:178-189 | a block is an assertion iff it covers an assertion line, whatever else it covers; case body iff it covers none, cases are known and it touches one; unclassified iff it covers none, no cases are known and it covers a call; otherwise assembly |
| ChargedLines.ScoreByLines | packages/core/src/application/testBloatMetrics.ts:399-443 | the four counters are the sums of the solid lines of the repeated blocks under those four conditions, and the two file counts and the denominator are those of the evidence and the files |
| ChargedLines.EvidenceByLines | packages/core/src/application/testBloatMetrics.ts:462-492 | a file has a row iff it has a repeated block without an assertion line, one row each, which sums exactly those blocks and shows a longest one |
| OrderStatistics.SortUpSorts | packages/core/src/application/definitionSurfaceCandidates.ts:25 | sorted, and a permutation |
| OrderStatistics.P95Iff | packages/core/src/application/definitionSurfaceCandidates.ts:23-27 | the percentile is the only one of n numbers with at most 95n/100, rounded down, below it and at most n - 1 - 95n/100 above |
| OrderStatistics.FewAboveP95 | packages/core/src/application/definitionSurfaceCandidates.ts:23-27 | at most n - 1 - floor(95n/100) numbers lie above the percentile, at least n - floor(95n/100) are not below it, and none is above up to twenty |
| SizeDispersion.MeasuresSplitLines | packages/core/src/application/testBloatMetrics.ts:211 | a file has one line more than line ends, which is the number of lines splitting gives, at least one |
| SizeDispersion.DispersionBounds | packages/core/src/application/testBloatMetrics.ts:505-512 | the ratio is always at least one, and one iff there are at most five files or none exceeds the percentile |
| SizeDispersion.DispersionIs | packages/core/src/application/testBloatMetrics.ts:505-513 | every field: nothing for no file, the largest size for up to five, and beyond the percentile, the last of the largest files, and the ratio of the two |
| SizeDispersion.SmallSuitesAreFlat | packages/core/src/application/testBloatMetrics.ts:494-512 | up to twenty files, none included, it is exactly one |
| SizeDispersion.FewFilesStandOut | packages/core/src/application/testBloatMetrics.ts:508-509 | fewer than one file in twenty lies above the percentile |
| SizeDispersion.FindWidest | packages/core/src/application/testBloatMetrics.ts:598-600 | the loop keeps the last of the widest files |
| SizeDispersion.SampleIsFromLargest | packages/core/src/application/testBloatMetrics.ts:598-600 | the sampled file is the one the sorted sizes name as largest |
| DefinitionCandidates.GroupByLanguage | packages/core/src/application/definitionSurfaceCandidates.ts:15-22 | the rows of every language, in order |
| DefinitionCandidates.LanguageDefinitionThresholds | packages/core/src/application/definitionSurfaceCandidates.ts:12-33 | one pair of percentiles for exactly the languages that occur |
| DefinitionCandidates.DefinitionSurfaceCandidateMetrics | packages/core/src/application/definitionSurfaceCandidates.ts:35-46 | falling by declaration lines, stable, and exactly the metrics above both percentiles of their language |
| DefinitionCandidates.SortDownIsStable | packages/core/src/application/definitionSurfaceCandidates.ts:45 | sorting keeps every metric and the order of equal ones |
| DefinitionCandidates.ChosenAre | packages/core/src/application/definitionSurfaceCandidates.ts:12-46 | before sorting the candidates are exactly the metrics above both percentiles of those with the same language, missing numbers as zero and missing languages as one, where that language declares anything, in order |
| DefinitionCandidates.FewCandidates | packages/core/src/application/definitionSurfaceCandidates.ts:23-46 | a language with n files has at most n - 1 - floor(95n/100) candidates, none up to twenty |
| ChangeSurface.IndexFacts | packages/core/src/application/changeSurface.ts:158-165 | the index by leaf name holds the consumers of every name |
| ChangeSurface.SymbolConsumersByAnchor | packages/core/src/application/changeSurface.ts:153-177 | every changed declaration is paired with its consumers, a file-level one with all of the file's |
| ChangeSurface.ClassifyProfile | packages/core/src/application/changeSurface.ts:195-256 | the branches compute the specified dossier, which `DossierFacts` states in terms of the reports and the reverse graph |
| ChangeSurface.SymbolEvidenceDossiers | packages/core/src/application/changeSurface.ts:190-259 | the dossiers of the profiles that change a declaration, each as `DossierFacts` states it |
| DossierFacts.EvidenceIff | packages/core/src/application/changeSurface.ts:203-256 | the bound is empty iff nobody else imports the file; evidence is symbol-level iff the bound is not empty and the first report of the language is available and confirms a static consumer, or confirms nobody and says that its references are complete |
| DossierFacts.CompletenessDecides | packages/core/src/application/changeSurface.ts:137-142 | with a bound, an available report and nobody confirmed: symbol-level if the report says complete, unavailable if it says incomplete, and if it says nothing symbol-level iff it has repository references and no reason that betrays the contrary |
| DossierFacts.DescribesIff | packages/core/src/application/changeSurface.ts:193-202 | file, language, changes without imports in order, and bound are those of the profile, and a gap repeats file, language, kind and anchors |
| DossierFacts.NamesIff | packages/core/src/application/changeSurface.ts:153-177 | with symbol-level evidence every changed declaration names exactly the other files that refer to it by the last part of its name, or to anything in the file for a change of the whole file |
| DossierFacts.ReasonIff | packages/core/src/application/changeSurface.ts:203-254 | which reason a gap gives: not queried, no report, toolchain, incomplete references, or no overlap with the two numbers of consumers |
| DossierFacts.ChangingIs | packages/core/src/application/changeSurface.ts:193-195 | a profile has a dossier iff it changes something else than imports |
| ChangeSurface.OneDossierEach | packages/core/src/application/changeSurface.ts:193-197 | one dossier a profile with a declaration change, in order |
| ChangeSurface.GapIffNotSymbol | packages/core/src/application/changeSurface.ts:179-189 | a gap exists iff the evidence is not symbol-level and names the same file, language, kind and anchors; non-empty confirmed consumers meet the static bound |
| ChangeSurface.MoreFactsIff | packages/core/src/application/changeSurface.ts:215-256 | a report with more facts keeps symbol-level evidence iff a consumer was confirmed before, one is confirmed within the bound now, or still none and its references are complete; confirmed consumers only grow |
| ChangeSurface.WithinBoundIff | packages/core/src/application/changeSurface.ts:39 | for every profile with symbol-level evidence the confirmed consumers stay within the static bound iff every reference found to a changed declaration comes from the file itself or a static consumer |
| ChangeSurface.SymbolsCanExceedTheBound | packages/core/src/application/changeSurface.ts:39 | a witness: one declaration with two users of which the bound knows one |
| SurfaceProjections.UnavailableLanguagesFromGaps | packages/core/src/application/changeSurface.ts:265-280 | one group a language, its files each once in order, its last reason |
| SurfaceProjections.CollectSurfaces | packages/core/src/application/changeSurface.ts:291-309 | one surface for each dossier that is not provider-unavailable, in order |
| SurfaceProjections.ComputeChangeSurface | packages/core/src/application/changeSurface.ts:288-317 | surfaces, gaps and groups are those of the dossiers; available iff there is a surface |
| SurfaceProjections.SurfacesAre | packages/core/src/application/changeSurface.ts:291-309 | one surface for every dossier that is symbol-level or has an empty bound, in order, with the number of static consumers and the changed anchors nobody is known to use |
| SurfaceProjections.GapsAre | packages/core/src/application/changeSurface.ts:310 | one gap for every dossier that has one, in order |
| SurfaceProjections.GroupIs | packages/core/src/application/changeSurface.ts:265-280 | a group has the files of the language in the order of their first gap due to the provider, each once, and the reason of the last one |
| SurfaceProjections.GroupsCoverUnavailable | packages/core/src/application/changeSurface.ts:261-280 | a file is in the group of a language iff a provider-unavailable dossier of that language has it |
| ImpactPlan.UnitsPartition | packages/core/src/application/impactPlan.ts:151-153 | the three lists are the units of three parts of the changes, in order: every change, as often as it occurs, is in exactly one |
| ImpactPlan.KindsIff | packages/core/src/application/impactPlan.ts:53 | which kinds of changes are public, which concern dependencies, and that the rest is implementation |
| ImpactPlan.ItemsAre | packages/core/src/application/impactPlan.ts:150-168 | one item for every profile with a public or dependency change, in order, with the units of its three kinds of changes and the gap of its file |
| ImpactPlan.LastGapWins | packages/core/src/application/impactPlan.ts:145-148 | of several profiles of one file the last with a gap is the one whose gap is carried |
| ImpactPlan.PlanCarriesGaps | packages/core/src/application/impactPlan.ts:144-169 | for any profiles an item carries a gap iff some profile of its file lacks symbol-level evidence |
| ImpactPlan.PlanAgreesWithDossiers | packages/core/src/application/impactPlan.ts:132-169 | with one profile a file the item carries exactly the gap of its dossier, and none without a declaration change |

## Left out

- Hypotheses of the scan model: hashing has no collisions, parsing is deterministic, a raw import names one target that resolves iff it exists. File listing is the set of paths of the tree.
- Carried fields: `inDegree`, `alphaStruct` and `previousLocalBurdenFingerprint` travel with an entry as one opaque value and are not compared; the graph metrics, `p95` of the other inputs and calibration are not modelled. Of the metrics computed from the text alone five stand for all.
- Scan.RunScan: an index without an identity is modelled like no index, so its entry counts are not compared; independently refreshed test facts, which the identity leaves out, are not modelled. Whether a recovery is pending is fixed for a store; `BaselineGeneration` says when a publication changes it. Progress files, the pending diff and the governance lock are not modelled.
- Scan.RunFull: the steps inside a generation swap are those of `BaselineGeneration`; here they are one.
- ScanIncremental.MixedIsKept: speaks of shards alone, as in a store without identities; `ScanRuns` and `ScanChains` say what the identity check changes.
- ScanIncremental.RunsStayMixed: the same.
- ScanIncremental.MixedConverges: the same.
- ScanIncremental.CrashConvergence: the same; `ScanRuns.ScansConvergeIff` is the statement over the store.
- ScanIncremental.UnsettledConsumerIsLost: the same; `ScanRuns.StoppedScanLosesConsumer` is the statement over scans.
- Scan.GraphsAgreeIff: implicit dependencies, which both graphs receive alike, are left out.
- BlockSimilarity.RepeatedBlocksOf: a map from keys to documents is a list of blocks with distinct keys; how a fingerprint is computed from text is not modelled.
- DefinitionSurface.SimilarityGroups: the final sort and cut, the sample blocks, the path normalisation and the reading of files are left out; the blocks are given.
- The exact-duplicate layer of `fixtureBoilerplate.ts` is not modelled; its block layer is the enumeration of `BlockSimilarity`.
- EvolutionEvidence.SelectCoordinationEvents: events of one candidate are distinct by position, and candidates are distinct objects.
- EvolutionEvidence.CochangeEvidence: the locale comparison is an arbitrary weak order.
- BaselineGeneration.PublishOverActive: renaming and removing are atomic, and transient failures of a renaming are retried within one operation; left-over staging directories are not followed.
- GitBlobBatch.ReadGitBlobs: texts are bytes; UTF-8 decoding is left out, and headers are compared as bytes. Requests have distinct keys.
- DiffHunks.HunkRoundTripIff: hunk lines contain no line feed; git's quoted form of a name is an arbitrary text after the opening quote.
- ChangeSet.MemoAgrees: the computation of a change set is an arbitrary function of the repository and the request.
- SkillSwap.SwapOverInstalled: renaming and removing are atomic, copying is not; the creation of the parent directory is left out. Suffixes are fresh.
- ConfigAudit.LogExplainsState: single file writes are atomic; the JSON format is reduced to malformed, missing or a hash.
- GovernancePersistence.RewriteGovernanceBlock: positions are characters, as in a text without surrogate pairs.
- PersistenceSetting.SetTwiceIff: the YAML reader is an arbitrary function.
- The git exclude file written beside the configuration is not modelled.
- SimilarityAccounting.CodeSimilarityEvidence: the final sort and cut to three rows and the sample text are left out.
- SizeDispersion.DispersionBounds: `floor(n * 0.95)` is computed exactly, and the ratio over the reals.
- ChangeSurface.SymbolConsumersByAnchor: sorted lists without duplicates are sets; reasons are values instead of texts.
- SurfaceProjections.ComputeChangeSurface: the impact formula itself is not modelled.
- ImpactPlan.PlanAgreesWithDossiers: consumers and actions of an item are left out.
- Command handlers, report rendering, coordination services, language servers and calibration profiles would only add easy members or lie in files outside this model.

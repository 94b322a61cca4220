# Crosscodex in Dafny

A model of the parts of crosscodex where many steps have to agree with each other, with proofs over all inputs, runs
and reachable states. `dafny verify dfyconfig.toml` checks the whole project.

## What is modelled

**The result cache** (`ResultCache`, `CacheProtocol`, `CacheSeal`, `CacheHonest`, `CacheReuse`, `CacheLookup`,
`StagePlan`). Any number of stage runs of any number of jobs take their steps in any order over one database and one
checkpoint storage: plan, look up in batches, collect, store, record, seal, persist. An adversary may replace the
database and the storage between any two steps, but cannot sign: a verifying checkpoint it stores is one the daemon
signed at some time. Digests and keys are the values they digest, so they are injective. `CacheProtocol` proves what
the verification guarantees under that adversary, `CacheSeal` what is signed and what a stage ends with, `CacheHonest`
what it never does without one, `CacheReuse` that sealed rows are reused, `CacheLookup` that the batched lookup is one
lookup, and `StagePlan` the planning and counting around it.

**Two-phase collection** (`Collector`, `CollectorResults`). The result handler, the delayed retries, the monitor,
`AwaitResults`, release and abandon as interleaved atomic steps; a retry's check of `released`, its publish, its
removal of the task and its send are separate steps. The `Collection` class carries the shared fields, and its methods
refine the steps.

**Configuration editing** (`ConfigPath`, `ConfigSplit`, `YamlTree`, `YamlEdit`, `YamlAlias`, `YamlSafety`,
`YamlRefuse`, `YamlMerge`, `YamlResolve`). A parsed YAML file as a tree of nodes edited in place, with aliases
(section 7.1 of YAML 1.2.2) across it; the check that refuses an edit of a shared anchor; and what an accepted edit
leaves alone, first in the tree as it is written, where a merge key is a key like any other (`YamlSafety`), then for
the configuration's reader, which resolves merge keys (`YamlMerge`). A value's meaning is its expansion with aliases
replaced, to every depth, so trees with recursive aliases are covered in `YamlSafety`; the reader of `YamlMerge` takes
files that can be decoded, in which no value contains itself. The main theorems take files with plain scalar keys,
none twice in a mapping (a file with a key twice cannot be decoded); `YamlAlias.IntactExactly` and
`YamlSafety.RestUnchanged` need neither. `YamlRefuse` says when the check refuses, and `YamlResolve` ties the reader to
the loader's own merge resolution.

**The repair gate** (`Repair`). Which edits reach the file, as a function of how the configuration loads before and
after, and what sequences of edits can do.

**The DAG and its execution** (`Dag`, `Engine`). Kahn's algorithm with counters against the rounds of settled nodes,
the cycle report, and the level-by-level execution with analyzers of a level interleaved step by step.

**Smaller codecs and projections** (`TaskId`, `Prompt`, `CacheIdentity`, `Projection`).

## Where the code falls short of what it promises

Each of these is a lemma with a concrete input, beside a lemma that says exactly when the promise holds.

- A complete `AwaitResults` can miss a result when a redispatch publish fails: the retry removes the task from pending
  before it sends the task's result (`Collector.LostResult`). It can also return two for an ID that was resolved while
  its retry waited (`Collector.DoubledResult`). `Collector.CompleteCounts` gives the number for every ID and every run.
- A set that creates a section hides the one inherited through a merge key, and drops what that one held besides the
  key set; a path that names a merge key writes one, through which other keys come to be read
  (`YamlMerge.InheritedIsHidden`, `YamlMerge.MergeKeyIntroduces`). `YamlMerge.AcceptedEditReadsExactly` says exactly
  when an accepted edit keeps the node that every other path reads, `YamlMerge.EditedPathReads` what its own path reads.
- The anchor check never looks at the root's anchor (`YamlSafety.RootAnchorIsMissed`,
  `YamlSafety.AcceptedEditExactly`). A file with an alias to the root contains itself and cannot be decoded, so for
  files that load the aliases are safe (`YamlSafety.AcceptedEditIsLocal`). It never looks at anchors on keys either
  (`YamlSafety.AnchoredKeyIsLost`); for files with such keys `YamlAlias.IntactExactly` is the exact condition.
- A pre-seeded analyzer hides a dependency that the pass runs again and fails (`Engine.SeedHidesFailure`,
  `Engine.GatingClosesExactly`).
- A cancelled run lists a pre-seeded analyzer of a level it did not reach as completed and as skipped
  (`Engine.CancelledTwice`, `Engine.CancelledPartitionExactly`).
- A pair ID whose source has a double hyphen reads back as another pair (`TaskId.DoubleHyphenCollides`,
  `TaskId.MisreadPairs`, `TaskId.PairRoundTrip`).

Two limits are the code's own and are made exact here. The editor checks one profile and says so
(cmd/crosscodex/config_edit.go:21-24): a profile is sure to go on loading exactly when every edit is checked with it
(`Repair.ProfileKeepsExactly`). A cache call that was given up may still commit: before its attempt is signed it raises
no alarm (`CacheHonest.NoFalseAlarm`), and after that it does exactly when it changes the attempt's record
(`CacheHonest.LateAlarmExactly`).

## Model

| member | source | states |
|---|---|---|
| `CacheProtocol.CacheTransparency` | internal/analysis/cache.go:353-503 | In every run, with arbitrary edits of database and storage but no forged signature, a cached result a task gets is one that the attempt its row names received itself for a task with that same key, from the model and deployment the key names, stored under the key, and signed as part of its record. |
| `CacheProtocol.SealBeforePersist` | internal/analysis/cache.go:625-705 | A stage that keeps records completes only after its attempt was recorded, its whole record signed and its checkpoint stored, and its output names that attempt; no attempt is signed twice; a disabled attempt never calls the store and names none. |
| `CacheProtocol.ManifestNamesTasksOnce` | internal/analysis/cache.go:484-496 | In every run each attempt's manifest names a task at most once, over writes and hits together. |
| `CacheProtocol.InvKept` | internal/analysis/engine.go:371-452 | Every step of the protocol, the adversary's included, keeps the invariant behind the run theorems. |
| `CacheSeal.SealDecides` | internal/analysis/cache.go:643-703 | In every run the seal signs exactly when the store answers and holds exactly the stage's record, and signs what it holds; otherwise the stage ends, with the tamper alarm exactly when it was completing, the store answered and no call was lost, and a stage that had stopped keeps its own error. |
| `CacheSeal.SignedWasStored` | internal/analysis/cache.go:643-669 | Every signature in a run was made by a seal of its attempt at a moment when the database held exactly the record it signs. |
| `CacheSeal.CompletedWasStored` | internal/analysis/cache.go:625-669 | A stage that keeps records and completed was sealed at a moment when the database held exactly its writes, its hits and its one stats row. |
| `CacheSeal.FailsExactly` | internal/analysis/cache.go:671-796 | Over every run a failed stage reports corruption exactly when it met a checkpoint that fails or was signed for another attempt, a row its producer's checkpoint does not vouch for, or a record at its seal that is not its own with no call lost; its own error exactly when its work failed or its output could not be saved; and the cache as unavailable otherwise. |
| `CacheSeal.EveryKeyIsLookedUp` | internal/analysis/cache.go:353-503 | A stage in enabled mode that goes on to collect has read every planned key in some batch and found it exactly when that snapshot vouched for its row; its hit entries are exactly those of the tasks found; in another mode it finds nothing. |
| `CacheHonest.NoFalseAlarm` | internal/analysis/cache.go:377-435 | When only the daemon writes, no lookup and no seal reports corruption, in any interleaving, even when calls are lost and commit at once, never, or any time before their attempt is signed; the database holds exactly the record of every attempt without a lost call. |
| `CacheHonest.LateAlarmExactly` | internal/analysis/cache.go:449-482 | A lost call that commits after its attempt was signed makes every lookup that checks a row of the attempt against its checkpoint, any time later in the run, end as corrupt, exactly when it changes what the database holds of the attempt; otherwise the row stays a hit. |
| `CacheHonest.LateChanges` | internal/analysis/cache.go:526-641 | A late RecordStage always changes it, a late Put unless the same write is there. |
| `CacheHonest.HonestKept` | internal/analysis/cache.go:526-669 | Every step of the daemon keeps an honest system honest: signed records are complete and never written again. |
| `CacheHonest.NoBadRow` | internal/analysis/cache.go:426-477 | In an honest state every row of a batch is a hit or a miss: a producer sealed later is only a miss. |
| `CacheReuse.SealedRowIsHit` | internal/analysis/cache.go:449-482 | When only the daemon writes, a lookup ends no stage and takes every row of its batch whose attempt's checkpoint it loaded. |
| `CacheReuse.ReuseHappens` | internal/analysis/cache.go:353-503 | For every reply the cache may store and any two attempts of one analyzer there is a run in which one stores and seals it and the other finds it. |
| `ResultCache.VerifyNeverMisused` | pkg/resultcache/resultcache.go:356-401 | With the snapshot and checkpoints the engine passes, Verify never reports misuse, so the branch that logs a bug is dead. |
| `CacheLookup.VerifyBatch` | internal/analysis/cache.go:449-482 | The loop over one snapshot's keys finds exactly the hits of the batch, or reports corruption exactly when one key is corrupt. |
| `CacheLookup.LookupBatch` | internal/analysis/cache.go:377-482 | One batch loads the checkpoints of the new producers only, and gives the batch's hits or corruption as if it had loaded all of them. |
| `CacheLookup.LookupCached` | internal/analysis/cache.go:353-503 | The batched lookup equals the key-by-key lookup of an unchanging store, for every batch size of at least one. |
| `CacheLookup.OneSnapshotSuffices` | internal/analysis/cache.go:359-363 | One unbatched snapshot of all keys gives the same hits and the same success or corruption. |
| `CacheLookup.BatchAgrees` | internal/analysis/cache.go:426-441 | What a batch's snapshot says of a key is what the store says of it alone, whatever was loaded before. |
| `CacheLookup.NothingSigned` | internal/analysis/cache.go:429-437 | A batch none of whose producers has a verified checkpoint holds misses only, so skipping its snapshot loses nothing. |
| `StagePlan.PlanCache` | internal/analysis/cache.go:270-305 | The plan holds exactly the cacheable tasks whose ID is unique in the stage, each under its own key. |
| `StagePlan.Partition` | internal/analysis/engine.go:371-429 | Every pre-built task is kept and none is dispatched or looked up, a hit is a planned task whose key was found, every other task is dispatched; nothing is lost or repeated, tasks = pre-built + hits + dispatched for every task list, repeated IDs included, with hits counted as the recorded hit entries, and the stats row counts these parts. |
| `StagePlan.SplitIsExact` | internal/analysis/engine.go:371-429 | The three parts are the task list as a multiset, and no ID is both a hit and dispatched. |
| `StagePlan.HitsCounted` | internal/analysis/cache.go:484-496 | Every cached ID is the ID of exactly one dispatchable task, so the tasks taken out as hits and the hit entries are as many. |
| `StagePlan.StageCache.constructor` | internal/analysis/cache.go:212-318 | A stage starts with its plan, no writes and no uncertain call. |
| `StagePlan.StageCache.PutResults` | internal/analysis/cache.go:526-585 | The writes grow by exactly the accepted results whose call committed, and uncertainty is recorded exactly for lost calls. |
| `StagePlan.WritesAreOwn` | internal/analysis/cache.go:526-585 | What is written is exactly the committed Puts of results that belong to a planned task, did not fail, name the model and deployment of that task's key and are usable to the analyzer. |
| `StagePlan.WrittenOnce` | internal/analysis/cache.go:526-585 | No task is written twice when none succeeded twice. |
| `Collector.AbandonIsLastWord` | internal/analysis/collector.go:254-286 | In every interleaving nothing is published after the abandon message, which is there exactly when the collection ended incomplete, partly failed dispatch included. |
| `Collector.RetriesAreBounded` | internal/analysis/collector.go:217-306 | A task is published at most once per dispatch plus MaxRetries times, and at most once per dispatch plus once per retryable error, so a truncated output triggers nothing. |
| `Collector.NoSendBlocks` | internal/analysis/collector.go:161-174 | If each publish gets at most one reply, the result channel never holds more than its capacity. |
| `Collector.OneToOne` | internal/analysis/collector.go:410-544 | If no redispatch publish fails, a complete AwaitResults returns exactly one result per distinct expected ID and none for another. |
| `Collector.CompleteUnlessGap` | internal/analysis/collector.go:453-475 | For an ID expected once, with at most one reply per publish, a complete return has its one result exactly when no retry of it sits between removal and send. |
| `Collector.CompleteCounts` | internal/analysis/collector.go:453-544 | In every run, whatever IDs are repeated and however often answered, a complete return has one result per expected ID and none for another, less one in the gap, plus one per retry that failed to publish after the ID was resolved. |
| `Collector.DoubledResult` | internal/analysis/collector.go:268-279 | A run in which a complete return holds two results for one ID and none is in the gap. |
| `Collector.LostResult` | internal/analysis/collector.go:268-279 | A run in which a complete return holds no result for its only task. |
| `CollectorResults.ResultsAreCalledFor` | internal/analysis/collector.go:177-321 | At every moment of every run, the results of each kind for an ID are as many as the events that call for one: a success per answer that came while it was pending, a truncated output likewise, an exhausted one for a retryable error after MaxRetries earlier ones, a missing task when there is none to send again, and a failed redispatch, counted before its result is sent. |
| `CollectorResults.NoTaskIsForgotten` | internal/analysis/collector.go:217-321 | While AwaitResults is under way and no retry was told to stop, every task without a result has a request in flight or a retry waiting or under way. |
| `Collector.Collection.constructor` | internal/analysis/collector.go:110-174 | PrepareCollect makes every expected ID pending, and nothing else is there. |
| `Collector.Collection.HandleResult` | internal/analysis/collector.go:177-321 | The handler resolves, retries or ignores exactly as the step of the transition system does, whose results `CollectorResults.ResultsAreCalledFor` ties to the messages. |
| `Collector.Collection.Receive` | internal/analysis/collector.go:177-321 | A delivered message is the Deliver step on the whole shared state. |
| `Collector.Collection.Drain` | internal/analysis/collector.go:521-544 | Draining collects everything buffered, in order, and returns complete. |
| `ConfigPath.PrefixTestIsFaithful` | cmd/crosscodex/config_edit.go:595-610 | The string prefix test on rendered paths holds exactly when the alias's keys start with the edited keys, whatever the keys contain. |
| `ConfigPath.FormatPathsDiffer` | pkg/config/paths.go:19-38 | Different key lists are written as different paths. |
| `ConfigPath.QuotedPrefixFree` | pkg/config/paths.go:19-24 | A quoted key ends where it ends: what follows cannot change which key is read. |
| `ConfigSplit.SplitReadsBack` | pkg/config/paths.go:26-38 | Splitting a formatted path gives back its keys, whatever they contain. |
| `ConfigSplit.SplitPath` | pkg/config/paths.go:69-134 | The loop over the rest of the path reads back every list of keys that was formatted, and refuses what its grammar refuses. |
| `ConfigSplit.DottedReads` | pkg/config/paths.go:69-134 | A path without brackets and quotes is read exactly when it is plain keys joined with single dots, and as those keys. |
| `YamlTree.Document.constructor` | cmd/crosscodex/config_edit.go:155-176 | The editor holds the parsed tree as given. |
| `YamlTree.Document.Set` | cmd/crosscodex/config_edit.go:463-490 | Walking and creating sections in place equals the recursive edit, and a refusal leaves the tree as it was. |
| `YamlTree.Document.Clear` | cmd/crosscodex/config_edit.go:494-510 | Removing a key in place equals the recursive edit, and a refusal leaves the tree as it was. |
| `YamlTree.KeyIndex` | cmd/crosscodex/config_edit.go:663-670 | The first entry with a scalar key of that name; a negative result means that there is none, or that the name is the merge key, which is never found. |
| `YamlTree.FindFrom` | cmd/crosscodex/config_edit.go:663-670 | The first entry with a scalar key of that name, or none. |
| `YamlEdit.EditShape` | cmd/crosscodex/config_edit.go:516-554 | An accepted edit changes one existing section, by one entry, and adds only nodes that are no aliases and hold only added nodes. |
| `YamlEdit.MeaningKept` | cmd/crosscodex/config_edit.go:556-563 | A node in a part that no child and no alias leads out of keeps its expansion to every depth when that part is unchanged. |
| `YamlEdit.SafeIsClosed` | cmd/crosscodex/config_edit.go:564-590 | If no remaining alias leads into the touched part, nothing outside it does. |
| `YamlEdit.DroppedIsOut` | cmd/crosscodex/config_edit.go:494-510 | No node of the dropped subtree can be reached after the edit. |
| `YamlEdit.RestStays` | cmd/crosscodex/config_edit.go:494-510 | Every node outside the dropped subtree can still be reached. |
| `YamlAlias.IntactExactly` | cmd/crosscodex/config_edit.go:556-563 | For every tree, an edit that changes its section keeps all aliases intact exactly when no remaining alias leads to a section on the way or into what is dropped. |
| `YamlAlias.EditChanges` | cmd/crosscodex/config_edit.go:463-510 | An edit leaves what its section stands for as it was exactly when it writes back, at the end of its path, a value that already reads so. |
| `YamlAlias.AcceptedExactly` | cmd/crosscodex/config_edit.go:564-659 | With plain unique keys, an accepted edit leads an alias astray exactly when a remaining alias refers to the root. |
| `YamlAlias.RefOf` | cmd/crosscodex/config_edit.go:639-659 | The walk finds every alias below a node, with its target. |
| `YamlAlias.RefIsBelow` | cmd/crosscodex/config_edit.go:639-659 | Everything the walk finds lies below the node, under its keys. |
| `YamlAlias.RefAtPath` | cmd/crosscodex/config_edit.go:595-633 | An alias whose keys start with the edited path lies inside the value at that path, although list indices are forgotten. |
| `YamlAlias.BelowIsClear` | cmd/crosscodex/config_edit.go:595-633 | When the walk below the value refuses nothing, every anchor there is referred to from inside only. |
| `YamlAlias.ChainIsClear` | cmd/crosscodex/config_edit.go:564-590 | When the check passes, no section on the way past the root carries an anchor in use. |
| `YamlSafety.AcceptedEditIsLocal` | cmd/crosscodex/config_edit.go:142-190 | In the tree as written, an accepted edit of a file without self-containing aliases leaves every alias intact and every path that parts from the edited one at the same node with the same meaning. |
| `YamlSafety.AcceptedEditExactly` | cmd/crosscodex/config_edit.go:564-590 | In general an accepted edit keeps the aliases intact exactly when no remaining alias refers to the root or the edit writes back what was there. |
| `YamlRefuse.RefusesExactly` | cmd/crosscodex/config_edit.go:555-659 | In a file with plain unique keys the check refuses exactly when some alias refers to a section on the way past the root, to the value the path stops at, or, where the path reaches its end, to something below that value while the alias stands outside it; an anchor no alias refers to never refuses. |
| `YamlSafety.RestUnchanged` | cmd/crosscodex/config_edit.go:463-554 | When no remaining alias leads into the touched part, any path of the tree as written that is neither a prefix nor an extension of the edited one is unchanged, past created sections too. |
| `YamlSafety.EditTakesEffect` | cmd/crosscodex/config_edit.go:463-510 | In the tree as written, the key set then reads as the value set, unless the path names a merge key that the section has already, which goes on to be found instead; the key unset led somewhere and leads nowhere any more. |
| `YamlAlias.AcceptsExactly` | cmd/crosscodex/config_edit.go:463-554 | Set and unset succeed exactly when the path meets no alias, list or value where a section is needed: set creates and replaces values and nulls but never a section or an alias to one, unset needs the key; and the refusal says which of these it was. |
| `YamlAlias.ReplacedKeepsAnchor` | cmd/crosscodex/config_edit.go:470-484 | The node that replaces a value or a null section carries its anchor. |
| `YamlSafety.RootAnchorIsMissed` | cmd/crosscodex/config_edit.go:564-590 | An accepted unset of a file with an alias to its root that changes what the alias stands for. |
| `YamlSafety.AnchoredKeyIsLost` | cmd/crosscodex/config_edit.go:564-590 | An accepted unset that removes an anchored key an alias refers to. |
| `YamlMerge.AcceptedEditReadsExactly` | pkg/config/references.go:42-127 | For a reader who resolves aliases and merge keys, every path that parts from the one an accepted edit names reads the same node as before exactly when the edit neither creates a section over an inherited one that holds something beside the path nor makes a section inherit what it writes below a merge key. |
| `YamlMerge.EditedPathReads` | cmd/crosscodex/config_edit.go:463-510 | For the same reader, the path of an accepted set reads the value set, or nothing if a merge key is in it; that of an accepted unset reads what the section inherits under the key, with its meaning kept, or nothing. |
| `YamlMerge.InheritedIsHidden` | cmd/crosscodex/config_edit.go:522-533 | An accepted set of one inherited key after which its inherited sibling reads nothing. |
| `YamlMerge.MergeKeyIntroduces` | cmd/crosscodex/config_edit.go:661-670 | An accepted set of `<<.x`, before which the path `x` reads nothing and after which it reads something. |
| `YamlMerge.NothingBeside` | pkg/config/references.go:67-92 | A section that holds nothing beside a path reads as nothing on every path that parts from it. |
| `YamlMerge.SomethingBeside` | pkg/config/references.go:67-92 | One that holds something beside a path reads as something on a path that parts from it. |
| `YamlMerge.ReadInside` | pkg/config/references.go:42-127 | Reading inside a part that no child and no alias leads out of depends on that part alone, merge sources included. |
| `YamlResolve.ResolvedIsRead` | pkg/config/references.go:58-118 | The loader's list of a mapping's pairs, merge sources flattened and a set of seen keys running along, leads every name to the node the reader finds: own keys before merged ones, earlier sources before later ones. |
| `YamlResolve.EachKeyOnce` | pkg/config/references.go:58-92 | The loader never lists a key twice, whatever the mapping merges in. |
| `YamlMerge.EditStaysDeep` | cmd/crosscodex/config_edit.go:516-554 | An edit never makes a value contain itself. |
| `Repair.CompleteNames` | pkg/config/errors.go:73-122 | An error made of FieldErrors alone names at least one setting. |
| `Repair.CompleteExactly` | pkg/config/errors.go:90-122 | An error is complete exactly when every branch of it ends in a FieldError, sentinels wrapped next to others aside. |
| `Repair.FieldErrorsAre` | pkg/config/errors.go:68-88 | The problems listed are exactly the FieldErrors that branches of the error end in. |
| `Repair.CompareProblems` | cmd/crosscodex/config_edit.go:337-353 | Still is the multiset intersection of the paths before and after, added the rest of those after, and nothing is added exactly when after is a sub-multiset of before. |
| `Repair.CheckEdit` | cmd/crosscodex/config_edit.go:245-315 | The gate writes exactly the edits that make the configuration load, and those of a configuration that loads neither before nor after whose problems before and after are all FieldErrors, of which no layer but the user config and the defaults set one before, and shrink to a strict sub-multiset. |
| `Repair.FewerIsStrict` | cmd/crosscodex/config_edit.go:300-304 | No problem added and fewer of them is the same as a strict sub-multiset. |
| `Repair.LoadsForever` | cmd/crosscodex/config_edit.go:245-265 | Over any sequence of edits a configuration that loads never stops loading. |
| `Repair.RepairsShrink` | cmd/crosscodex/config_edit.go:289-315 | Every write that leaves the configuration broken makes its problems a strict sub-multiset. |
| `Repair.RepairsAreBounded` | cmd/crosscodex/config_edit.go:289-315 | A sequence of any length holds fewer partial repairs than there were problems at its start. |
| `Repair.ProfileKeepsExactly` | cmd/crosscodex/config_edit.go:21-24 | Over a sequence of edits, each with a profile of its own, a profile that loads is sure to go on loading exactly when every edit is made with it. |
| `Repair.AnotherProfileCanBreak` | cmd/crosscodex/config_edit.go:21-24 | A loader and a partial repair with one profile after which another profile stops loading. |
| `Dag.KahnSort` | pkg/analyzer/dag.go:192-250 | Level i holds each node settled in round i once, in the order of names, and the sort stops when a round settles nothing. |
| `Dag.SortIsDeterministic` | pkg/analyzer/dag.go:37-38 | Two sorts of a graph give the same levels and order, whatever order its maps are ranged over in. |
| `Dag.SortSorts` | pkg/analyzer/dag.go:189-191 | Sorting puts names in order. |
| `Dag.Settle` | pkg/analyzer/dag.go:235-245 | Lowering the counters of a node's dependents leaves every counter at its unmet dependencies, and queues each node once, when its last dependency is met. |
| `Dag.SettleLevel` | pkg/analyzer/dag.go:226-248 | Settling a level queues exactly the nodes it frees. |
| `Dag.Reverse` | pkg/analyzer/dag.go:217-223 | The reverse adjacency lists each dependent as often as it lists the dependency. |
| `Dag.FirstLevel` | pkg/analyzer/dag.go:207-214 | The first queue is exactly the nodes without dependencies, each once and in order. |
| `Dag.LevelIsLongestChain` | pkg/analyzer/dag.go:24-26 | A node's level is the length of its longest chain of dependencies. |
| `Dag.AllSettledIffAcyclic` | pkg/analyzer/dag.go:166-175 | All nodes are sorted exactly when the graph has no cycle. |
| `Dag.FindCycle` | pkg/analyzer/dag.go:255-308 | The walk over the nodes left over never meets a dead end, ends, and reports a real cycle, the one that the walk from the first name left over along first dependencies left over ends in. |
| `Dag.NextLeft` | pkg/analyzer/dag.go:282-300 | The scan of a node's sorted dependencies finds the first one left over. |
| `Dag.BuildDag` | pkg/analyzer/dag.go:116-187 | Building succeeds exactly on acyclic graphs with all dependencies registered; otherwise it reports a missing dependency or a cycle that is there. |
| `Dag.DependenciesComeFirst` | pkg/analyzer/dag.go:189-191 | Every dependency sits in a strictly earlier level. |
| `Engine.BuiltIsLayered` | internal/analysis/engine.go:200-204 | The levels of a built DAG meet what the execution relies on. |
| `Engine.InvKept` | internal/analysis/engine.go:240-294 | Every atomic step of every interleaving keeps what the run theorems rest on. |
| `Engine.FinishedPartition` | internal/analysis/engine.go:194-217 | In a finished run every analyzer stands exactly once in exactly the list the order-free reference says, and was dispatched exactly when it was registered, not completed before, and all it depends on was completed. |
| `Engine.OrderDoesNotMatter` | internal/analysis/engine.go:240-255 | Two finished runs with the same own outcomes have the same lists up to order. |
| `Engine.GatingClosesExactly` | internal/analysis/engine.go:259-294 | Completed analyzers have all transitive dependencies completed, for all own outcomes, exactly when the pre-seeded ones are closed under dependencies. |
| `Engine.SeedHidesFailure` | internal/analysis/engine.go:259-294 | A finished run that lists an analyzer as completed and the one it depends on as failed. |
| `Engine.FailureSkipsDependents` | internal/analysis/engine.go:286-294 | With closed seeds every transitive dependent of a failed analyzer is skipped and never dispatched. |
| `Engine.CancelledPartitionExactly` | internal/analysis/engine.go:206-217 | A cancelled run lists every analyzer once exactly when no pre-seeded one sits in a level not reached. |
| `Engine.CancelledTwice` | internal/analysis/engine.go:206-217 | A cancelled run that lists an analyzer as completed and as skipped. |
| `Engine.ExecutionState.IsCompleted` | internal/analysis/engine.go:632-641 | The scan finds a name exactly when it is in the list. |
| `Engine.ExecutionState.ExecuteAnalyzer` | internal/analysis/engine.go:259-294 | Run alone, an analyzer goes into the list the reference says, and a pre-seeded one into none. |
| `TaskId.PairRoundTrip` | internal/analyzer/taskid.go:30-59 | Printing then parsing a pair ID gives back its parts exactly when the source has no double hyphen and no trailing one and the first configured model matching is the true one. |
| `TaskId.ParsedIsPrinted` | internal/analyzer/taskid.go:30-59 | A pair ID is read only as parts it is made of: the analyzer's name, a clean source, a target, a configured model and a number that fits an int. |
| `TaskId.DoubleHyphenCollides` | internal/analyzer/taskid.go:36-41 | Two pairs that print one ID, which reads back as the one whose source is clean. |
| `TaskId.MisreadPairs` | internal/analyzer/taskid.go:36-57 | A source that ends in a hyphen and a model that another configured one ends are misread. |
| `TaskId.ControlRoundTrip` | internal/analyzer/taskid.go:65-91 | A skip ID always reads back; a sample ID exactly when the first configured model matching is the true one. |
| `TaskId.FormsNeverCollide` | internal/analyzer/artifacts/artifacts.go:126-196 | No skip ID equals a sample ID, whatever controls and models are called. |
| `TaskId.PairIdsDiffer` | internal/analyzer/relationship/relationship.go:282-283 | Pairs that read back have different IDs. |
| `Prompt.EscapeWithin` | internal/analyzer/promptvalue.go:92-109 | For every text and limit the result has no raw angle bracket, every ampersand opens an entity, its size is within the limit, and it reads back as the trimmed longest prefix whose escaped size fits. |
| `Prompt.PromptValue` | internal/analyzer/promptvalue.go:63-65 | The same with the size in bytes. |
| `Prompt.PromptText` | internal/analyzer/promptvalue.go:72-77 | The same with the size in characters, unbounded at zero or less. |
| `Prompt.EscapeReadsBack` | internal/analyzer/promptvalue.go:30-30 | Unescaping an escaped text gives it back. |
| `Prompt.EscapeIsInert` | internal/analyzer/promptvalue.go:30-30 | An escaped text holds no raw angle bracket and no ampersand outside an entity. |
| `Prompt.EscapesAsHtml` | internal/analyzer/promptvalue.go:30-30 | Wherever it stands, an angle bracket or an ampersand becomes its HTML entity and any other character stays. |
| `Prompt.SizesAre` | internal/analyzer/promptvalue.go:63-77 | The sizes bounded are the bytes of the UTF-8 encoding and the characters of the text. |
| `Prompt.Utf8ReadsBack` | internal/analyzer/promptvalue.go:35-44 | The bytes of a rune read back as the rune. |
| `Prompt.CutOnRune` | internal/analyzer/promptvalue.go:35-44 | The cut keeps the longest prefix of whole runes that fits in the bytes. |
| `CacheIdentity.EqualIdentitiesSendTheSame` | internal/analyzer/cacheidentity.go:33-70 | Two accepted tasks with equal identities send the model the same request. |
| `CacheIdentity.AcceptedIsSent` | internal/worker/payload.go:11-66 | The worker accepts what the cache accepts, and the identity holds everything the model sees. |
| `CacheIdentity.RequestIsExactly` | internal/analyzer/cacheidentity.go:33-106 | A task is accepted exactly when there is a request whose source, target, task type, model, temperature, token limit, sample and content hash are all what its payload names, and for that request. |
| `CacheIdentity.DifferentTasksDiffer` | internal/analyzer/cacheidentity.go:33-70 | Accepted tasks that differ in sample, task type, model, token limit or temperature never share an identity. |
| `CacheIdentity.MessagesAre` | pkg/llmclient/messages.go:27-48 | Messages are accepted exactly when they are a list of structs with known roles, and read in order, role and content each. |
| `CacheIdentity.OtherFieldsNeverMatter` | internal/analyzer/cacheidentity.go:33-106 | Payload fields outside the listed ones never change the cache request or whether there is one. |
| `CacheIdentity.WholeNumber` | internal/analyzer/cacheidentity.go:74-80 | Accepted are exactly the whole numbers from zero to the largest int32, and NaN and the infinities are not. |
| `CacheIdentity.KeyIdentifies` | pkg/resultcache/resultcache.go:92-119 | The encoding a key hashes determines the analyzer, the identity and the observed model, for every temperature a float64 can hold. |
| `CacheIdentity.FloatsCanBePrinted` | pkg/resultcache/resultcache.go:97-101 | A way to print the floats that meets what the encoding asks of it exists. |
| `Projection.ProjectionConverges` | internal/graph/catalog_projection.go:63-116 | After any history of partly failed projections and of other writers' steps, a projection without errors leaves a Control node for every control with its last row's properties and the validity it had, and a PARENT_OF edge from the parent within its catalog for exactly the controls whose parent exists, whatever other edges the graph holds. |
| `Projection.ProjectionAddsOnly` | internal/graph/catalog_projection.go:63-116 | It leaves nodes of other IDs and every edge there was as they were, and each new edge is a control's. |
| `Projection.ErrorsExactly` | internal/graph/catalog_projection.go:63-116 | It reports no error exactly when there are rows, no call fails and no control's ID is taken by a node of another label; missing parents and edges that exist are no errors. |
| `Projection.HistorySound` | internal/graph/catalog_projection.go:63-116 | Through every such history each edge under a parent-of ID runs between the nodes the ID names. |
| `Projection.RepeatAddsNothing` | internal/graph/catalog_projection.go:63-116 | Repeating it at any later time leaves the graph as it is. |
| `Projection.ListingOrderDoesNotMatter` | internal/graph/catalog_projection.go:75-114 | With one row per control, any listing order leaves the same graph. |
| `Projection.DerivedIdsDiffer` | pkg/graphdb/edges.go:28-44 | Distinct non-empty part lists have distinct IDs. |
| `Projection.TenantGraph.ProjectCatalog` | internal/graph/catalog_projection.go:63-116 | The two loops equal the functional projection, with its error count. |

## Left out

- RetriesAreBounded: an ID that is dispatched more than once is counted per dispatch.
- CompareProblems: the two lists are compared as multisets; their sorting is left out.
- CutOnRune: starts from valid UTF-8 without NUL; repairing and normalising the text are library calls.
- QuotedPrefixFree: a quoted key escapes ASCII control characters as Go does; other characters Go finds unprintable are kept as they are.
- AcceptedEditReadsExactly: every scalar key `<<` is taken for a merge key, a quoted one too, and a second merge key in a mapping, which cannot be decoded, is not read.
- AcceptedEditReadsExactly: compares nodes, so a created section that repeats the values it hides counts as a change.
- WholeNumber: `Number` has no negative zero, which Go takes for zero here and prints as `-0` in a temperature.
- KeyIdentifies: `BytesOf` takes one number per character rather than UTF-8 bytes.
- Aliases are collected by a function over the tree rather than by filling a map in place.
- SplitPath: of Go's string escapes, octal ones, `\u`, `\U` and `\x80` and above, which a formatted path never holds, are refused; error texts are left out.
- Tags, styles and comments of YAML nodes, `!!binary` keys, and YAML parsing and printing.
- DAG.Subset, request validation and the stage work between gating and the outcome of an analyzer.
- The outputs, errors and cache statistics that an execution result holds beside its three lists.
- A store that itself reports a corrupt snapshot; rows and records are what the model reads.
- NATS, PostgreSQL, object storage, hashing, signing and the graph database behind their contracts.
- Time: backoff, deadlines and jitter; a timer is a step that may happen. Liveness.
- Telemetry, logging, error texts, CLI plumbing, file ownership and atomic writes.
- Retention, backup and adjudication.

# A model of PLUR's protocols, algorithms and encodings

Dafny models of the parts of PLUR whose correctness is hard to see from one function, with proofs of what they
are for. Each `.dfy` file is one module. Run `dafny verify dfyconfig.toml` to check the whole project.

**Protocols, over every interleaving.** `AsyncMutex` (the promise-chained mutex and its pool), `DeltaLog` and
`EmbeddingCache` (the vector cache of a snapshot and an append-only log, written by several processes that may
die anywhere), `ContextEngine` (background learning with claims, release on failure and `settle`) over
`RecentSessions` (the bounded maps), and `ClaudeUserConfig` (editing a file another program writes too).
A step is a stretch of code between two awaits, or one file-system call. State, steps and invariants are
stated on values; classes take the same steps on objects, each method proved to move the value state by one
step. `ClaudeUserConfig` runs directly on an object that stands for the file system, with the other program's
writes and the failing calls given by arbitrary functions.

**Algorithms against a specification.** `TextEdits`, `FolderMapText`, `FolderMapEdit` and `FolderMapRead` (the
comment-preserving edit of `folders.yaml`: the splice, what it should make of the file, the code that records the
edits, and the new text read again), `EditDistance`, `Ranking`, `SemVer` with `Texts`, `WorkflowPins` and
`RedactSecrets`.

**Encodings.** `Capsule`, `PackIntegrity`, `ActorKeys`, and the dates of `Expiry`.

**Arithmetic over runs.** `Strength`: decay, feedback and confidence.

What the models take as given: SHA-256 and the other hashes are functions, injective where a proof says so;
JSON and YAML codecs are functions that undo each other on well-formed values, for single YAML keys and scalars
where these are written on one line; the embedder is a function of the text; floating-point numbers are reals, the
exponential is a power, the sigmoid any curve that never falls, the square root any non-negative root; a character
is a code unit, except in `ActorKeys`, where it is a Unicode scalar value.

## Where the code and its description differ

- `olderOrEqual` cannot compare prereleases that first differ in leading zeros, which its pattern lets through
  (`SemVer.WhenNeitherIsAtMost`, `SemVer.LeadingZerosAreNotCompared`).
- Names of identities are said not to collide. The empty identity shares its name with the NUL character
  (`ActorKeys.ShortNamesApart`), and a long identity shares its name with a short one exactly when the cut falls
  between two characters (`ActorKeys.MeetsExactlyAtBoundaries`).
- A date read from a statement is written without padding its year, so a year below 1000 can leave a window that
  ends before it starts (`Expiry.OrderedIffFourDigits`).
- A fold under one model drops another model's snapshot (`EmbeddingCache.FoldLosesAnotherSnapshot`; exactly when
  is `EmbeddingCache.FoldUnderAnotherModel`), and one that imports entries can lose them to older records when it
  dies half done (`EmbeddingCache.DyingFoldLosesImport`; exactly when is `EmbeddingCache.KilledFoldShows`).
- A session is said to learn a statement once. One whose set of claims was evicted or deleted learns it again when
  it comes back (`ContextEngine.ReturningSessionLearnsAgain`; exactly when is `ContextEngine.LearnWritesIffNotCurrent`).
- The pin check reads each file once, as the kind it is met as first (`WorkflowPins.SecondKindIsMissed`); it reads
  all it should exactly when no file is reachable as two kinds (`WorkflowPins.ReadsAllIffOneKind`).

## Model

| member | source | states |
|---|---|---|
| `AsyncMutexProtocol.StepKeepsInv` | packages/core/src/async-mutex.ts:32-96 | every step of any caller (call, start of a body, its end, the pool's `finally`) keeps the invariant that ties chains, depths, the map and the order of starts together |
| `AsyncMutexProtocol.RunKeepsInv` | packages/core/src/async-mutex.ts:32-96 | over every run of any number of callers, from a state with the invariant, the invariant holds of the state reached |
| `AsyncMutexProtocol.MutualExclusion` | packages/core/src/async-mutex.ts:32-50 | in every reachable state, two running bodies of one key are the same body |
| `AsyncMutexProtocol.CallOrder` | packages/core/src/async-mutex.ts:35-43 | if a later call of a key has started, every earlier one started before it and has ended |
| `AsyncMutexProtocol.EvictionKeepsLiveMutexes` | packages/core/src/async-mutex.ts:86-95 | a call that still has work is on the mutex the map holds for its key: eviction never splits a key |
| `AsyncMutexProtocol.PoolTracksLiveContention` | packages/core/src/async-mutex.ts:69-78 | every key in the map has an unsettled call, so the map is empty once all have settled |
| `AsyncMutexProtocol.NoDeadlock` | packages/core/src/async-mutex.ts:40-49 | while a body is queued, an earlier body of its key is running or one can start, so a helpful step can be taken |
| `AsyncMutexProtocol.StepLowersRank` | packages/core/src/async-mutex.ts:40-49 | no step raises the rank of a queued call, and each start or end of an earlier call of its key lowers it |
| `AsyncMutexProtocol.QueuedBodyStarts` | packages/core/src/async-mutex.ts:40-49 | after as many helpful steps as its rank is worth, over any run, a queued body is no longer queued |
| `AsyncMutexProtocol.NewCallWaitsForItsKeyOnly` | packages/core/src/async-mutex.ts:80-87 | a new call is the last, has the key it was made with and waits; earlier calls, starts and releases are as they were; it can start at once exactly when no call of that key is queued or running |
| `AsyncMutexProtocol.WhatCanHappen` | packages/core/src/async-mutex.ts:35-95 | a queued body can start exactly when no earlier call of its key is queued or running, a running one can end, and a call whose body has ended can leave |
| `AsyncMutexProtocol.OneCallMoves` | packages/core/src/async-mutex.ts:40-49 | every other step moves its own call one phase on and leaves every other call, the starts and the map as they are |
| `AsyncMutexProtocol.EvictsExactlyIdle` | packages/core/src/async-mutex.ts:88-95 | a call that leaves takes its key out of the map exactly when none of the key is queued or running, and no other key goes |
| `AsyncMutexProtocol.KeyedAsyncMutex.Begin` | packages/core/src/async-mutex.ts:80-87 | on objects, a call up to its first await appends one queued call of its key, on that key's mutex object, leaves the other calls and mutexes as they are, and moves the state by exactly one step of the protocol |
| `AsyncMutexProtocol.KeyedAsyncMutex.End` | packages/core/src/async-mutex.ts:46-49 | on objects, the end of a body, returning or throwing, ends its frame, releases its ticket and takes one off its mutex's depth, by exactly one step |
| `AsyncMutexProtocol.KeyedAsyncMutex.Leave` | packages/core/src/async-mutex.ts:88-95 | on objects, the pool's `finally` takes the key out of the map exactly when the map holds this mutex and it is idle, by exactly one step |
| `DeltaLog.CutAppend` | packages/core/src/embeddings.ts:445-473 | an append cut after any number of bytes, inside a character too, onto a file however torn, adds exactly the whole records of its batch and changes none that were there |
| `DeltaLog.WholeAppend` | packages/core/src/embeddings.ts:445-456 | a completed append adds exactly its batch, in order; it starts with a newline exactly when the last line was cut |
| `DeltaLog.TrimKeepsForeign` | packages/core/src/embeddings.ts:559-576 | the rewrite of the delta keeps every record of other models, in order, and none of its own |
| `DeltaLog.ForeignAppend` | packages/core/src/embeddings.ts:559-576 | the other models' records of a log are those of its parts, in order |
| `DeltaLog.ForeignCounts` | packages/core/src/embeddings.ts:559-576 | they are each left as often as they were, and no others are |
| `EmbeddingCache.OverrideTwice` | packages/core/src/embeddings.ts:552-558 | overriding a snapshot twice with the same records is overriding it once |
| `EmbeddingCache.LastRecordWins` | packages/core/src/embeddings.ts:413-427 | of an id's records by a model the last one counts |
| `EmbeddingCache.OthersStay` | packages/core/src/embeddings.ts:413-427 | an id without a record by that model is as it was |
| `EmbeddingCache.AppendShows` | packages/core/src/embeddings.ts:413-456 | the view after a cut append is the view before it overridden by the whole records that were written |
| `EmbeddingCache.KilledFoldShows` | packages/core/src/embeddings.ts:554-576 | a fold killed between its two writes shows what the whole fold would have, if and only if no imported entry differs from the delta's last record for its id; without imports that is always so |
| `EmbeddingCache.FoldShows` | packages/core/src/embeddings.ts:554-578 | a whole fold shows its own model the same view with the imports over it |
| `EmbeddingCache.FoldUnderAnotherModel` | packages/core/src/embeddings.ts:554-576 | a fold keeps another model's delta records and loses its snapshot: that model's view survives if and only if its delta records alone give it |
| `EmbeddingCache.RunKeepsFaithful` | packages/core/src/embeddings.ts:429-456 | over every run of locked appends and folds by any processes, killed anywhere, the view is the history of complete records while only one model folds |
| `EmbeddingCache.ViewIsTheHistory` | packages/core/src/embeddings.ts:396-456 | from an empty disk, every such run leaves a view equal to the complete records overridden in lock order |
| `EmbeddingCache.FoldLosesAnotherSnapshot` | packages/core/src/embeddings.ts:554-576 | a run from an empty disk after which a record completely written is in no view: it was folded, and another model folded after it |
| `EmbeddingCache.DyingFoldLosesImport` | packages/core/src/embeddings.ts:554-576 | a run from an empty disk after which an import is not served: its fold died half done and the delta held an older record for the id |
| `EmbeddingCache.StepKeepsSourced` | packages/core/src/embeddings.ts:413-427 | a step by any model, or a death, keeps every cached vector one that was written for that model and id |
| `EmbeddingCache.AnyRunKeepsSourced` | packages/core/src/embeddings.ts:413-427 | over every run, whatever models fold and wherever processes die, that stays so and the history only grows |
| `EmbeddingCache.UnlockedReadInventsNothing` | packages/core/src/embeddings.ts:396-400 | a search that reads the two files without the lock, at two points of any run, serves no vector that was not written for that model and id |
| `EmbeddingCache.ServedViewsAreCoherent` | packages/core/src/embeddings.ts:396-427 | if every record of a model holds the embedding of the text its hash names, every view a search can read in any run is coherent in the sense `EmbeddingSearch` asks for |
| `EmbeddingCache.CacheFiles.LoadCache` | packages/core/src/embeddings.ts:396-427 | the line-by-line reading of the two files gives the snapshot's entries overridden by the delta's records |
| `EmbeddingCache.CacheFiles.AppendEntries` | packages/core/src/embeddings.ts:446-456 | on the files, the lines put together in a loop leave the disk that appends are specified to leave; without the lock nothing is written and the append says so |
| `EmbeddingCache.CacheFiles.CompactCache` | packages/core/src/embeddings.ts:554-578 | on the files, after a locked fold whose second write goes through the model's view is the old view with the extra records over it and the delta holds exactly the other models' records; when the second write fails only the snapshot is written; without the lock nothing is, and the fold says so |
| `EmbeddingCache.FreshImportsMerge` | packages/core/src/embeddings.ts:632-667 | laying the imports a merge picks over what was served gives, id by id, the last import of a fresh text or what was there |
| `EmbeddingCache.CacheFiles.MergeEmbeddingsIntoCache` | packages/core/src/embeddings.ts:647-667 | a merge counts the ids of exactly the imports of the right dimension whose text the cache does not hold already; after a locked one that clears its delta, what is served is the merge id by id and the delta holds the other models' records; without the lock it writes nothing and reports none |
| `EmbeddingCache.MergeServesImports` | packages/core/src/embeddings.ts:632-667 | when what is served after is the merge of what was served before, as the merge promises, an imported id is served under the hash of the imported text, by the vector that was there if it was made from that text and else by the imported one |
| `TextEdits.BackToFront` | packages/core/src/folder-map-text.ts:119-125 | edits in order, applied one after another from the back, give the simultaneous splice |
| `TextEdits.SortedOnce` | packages/core/src/folder-map-text.ts:119-125 | a list sorted by start and number is determined by its elements, so the sort has one outcome |
| `TextEdits.ApplyEdits` | packages/core/src/folder-map-text.ts:119-125 | the loop applies the edits in the order of the sort, from the back |
| `TextEdits.AppliedIsSpliced` | packages/core/src/folder-map-text.ts:119-125 | edits that do not overlap, in whatever order they were recorded, splice the text as one |
| `TextEdits.AppliedProgress` | packages/core/src/folder-map-text.ts:119-130 | edits recorded from front to back, sorted and applied, give the recorded text and then the untouched rest |
| `TextEdits.AppliedAhead` | packages/core/src/folder-map-text.ts:259-260 | likewise with one more edit recorded last but standing first, as for an emptied list |
| `FolderMapText.Find` | packages/core/src/folder-map-text.ts:240-244 | the first item at or after j with the wanted path: none before it has that path, and with no result none has |
| `FolderMapText.UpdatedItemHolds` | packages/core/src/folder-map-text.ts:200-238 | an item updated in place holds exactly the wanted entry |
| `FolderMapText.ItemKeeps` | packages/core/src/folder-map-text.ts:200-238 | the text of an updated item, key by key: the comments above a removed key stay, an unchanged line stays whole, a rewritten one keeps its comments, its lead and its trail around the new scalar, and the missing keys follow, each on its line |
| `FolderMapText.ScalarsAreUpdatable` | packages/core/src/folder-map-text.ts:206-236 | an item of scalars takes any entry of scalars that keeps its first key |
| `FolderMapText.WhatIsNotUpdatable` | packages/core/src/folder-map-text.ts:206-236 | it takes none that drops its first key, changes a list or mapping or to one, or adds one |
| `FolderMapText.EditedHoldsNext` | packages/core/src/folder-map-text.ts:240-258 | the greedy match makes the list exactly the wanted entries, in the wanted order, and keeps every gap between items, in order |
| `FolderMapText.EditedPlaces` | packages/core/src/folder-map-text.ts:240-258 | where each entry stands: before the same gap as the item it was matched with, new ones behind the last of the list |
| `FolderMapText.NewFileHoldsNext` | packages/core/src/folder-map-text.ts:240-260 | the same for the whole file: all text between items survives, but for the ` []` of an emptied list |
| `FolderMapText.EmptiedFileText` | packages/core/src/folder-map-text.ts:258-261 | the text of an emptied file: ` []` after the colon, and all the text that stood around the items |
| `FolderMapEdit.UpdateKeys` | packages/core/src/folder-map-text.ts:206-226 | the loop over an item's keys succeeds exactly when each can be edited in place, and records the edits the progress says |
| `FolderMapEdit.UpdateItem` | packages/core/src/folder-map-text.ts:200-238 | likewise for a whole item, with the keys it lacks added at its end |
| `FolderMapEdit.RecordEdits` | packages/core/src/folder-map-text.ts:240-258 | the greedy loop succeeds exactly when every matched item can be updated in place, and records the edits the progress says, numbered in order |
| `FolderMapEdit.ListGood` | packages/core/src/folder-map-text.ts:196-260 | the edits of the whole list never overlap, and carried out they give the text the progress claims |
| `FolderMapEdit.ListText` | packages/core/src/folder-map-text.ts:240-258 | that text is the text of the edited list |
| `FolderMapEdit.AppliedIsNewFile` | packages/core/src/folder-map-text.ts:240-261 | the recorded edits, sorted and applied, give the new file |
| `FolderMapEdit.AppliedIsEmptied` | packages/core/src/folder-map-text.ts:258-261 | the same for an emptied list, whose ` []` is recorded last and stands first |
| `FolderMapEdit.Surgical` | packages/core/src/folder-map-text.ts:174-261 | the in-place edit succeeds exactly when every item is a mapping under a dash and every matched one can be updated in place, and then returns the new file |
| `FolderMapEdit.UnchangedItem` | packages/core/src/folder-map-text.ts:206-238 | an item that holds the wanted entry keeps every byte |
| `FolderMapEdit.UnchangedFile` | packages/core/src/folder-map-text.ts:240-261 | writing the entries a file already holds leaves it as it is, byte for byte |
| `FolderMapRead.UpdatedItemOk` | packages/core/src/folder-map-text.ts:200-238 | an item updated in place is again a mapping under a dash, on lines of its own, whose keys and values read as the wanted ones |
| `FolderMapRead.SoundIsLocated` | packages/core/src/folder-map-text.ts:174-196 | a file read item after item has items and keys exactly where the edit expects the reader to find them |
| `FolderMapRead.LocatedIsOk` | packages/core/src/folder-map-text.ts:174-196 | and a file laid out as the edit expects is one that can be read so |
| `FolderMapRead.NewFileReads` | packages/core/src/folder-map-text.ts:132-261 | whenever the edit succeeds, and what it writes is on one line and stands after a blank, the text it returns is laid out as the edit expects, reads as what was meant, and its items are the wanted entries in order |
| `FolderMapRead.SecondWriteIsIdle` | packages/core/src/folder-map-text.ts:132-261 | writing the same entries once more succeeds and returns the same text, byte for byte |
| `EditDistance.ScriptTurns` | packages/cli/src/known-flags.ts:25-37 | the edits read off the table turn the first text into the second, and are as many as the last cell says |
| `EditDistance.OneEdit` | packages/cli/src/known-flags.ts:25-37 | one edit of a text changes its cell by one at most, towards any other text |
| `EditDistance.CellIsEditDistance` | packages/cli/src/known-flags.ts:24-37 | the last cell is the least number of single-character insertions, deletions and substitutions, for all texts |
| `EditDistance.Symmetric` | packages/cli/src/known-flags.ts:25-37 | the distance is symmetric |
| `EditDistance.ZeroIffSame` | packages/cli/src/known-flags.ts:25-37 | it is zero exactly on equal texts |
| `EditDistance.Triangle` | packages/cli/src/known-flags.ts:25-37 | it satisfies the triangle inequality |
| `EditDistance.Distance` | packages/cli/src/known-flags.ts:25-37 | the filled table's last cell is the edit distance |
| `EditDistance.OtherDistance` | packages/cli/src/plur.ts:43-54 | the second copy computes it too |
| `EditDistance.OneDistance` | packages/cli/src/plur.ts:43-54 | two numbers that are both the edit distance are equal, so the copies agree |
| `EditDistance.Nearest` | packages/cli/src/known-flags.ts:44-55 | the first of the nearest flags within two edits, or nothing exactly when every flag is further |
| `RecentSessions.NeverOverTheCap` | packages/claw/src/context-engine.ts:70-78 | over every run of `touch`, `put` and deletes, no key is held twice and the size never passes the cap |
| `RecentSessions.MapIsNewestOfRecency` | packages/claw/src/context-engine.ts:63-78 | without deletes the map is exactly the newest cap entries of the unbounded recency list |
| `RecentSessions.HeldIffRecent` | packages/claw/src/context-engine.ts:48-78 | a session is held exactly when it was used and fewer than the cap's number of other sessions were used since |
| `RecentSessions.HeldAsLastStored` | packages/claw/src/context-engine.ts:63-78 | a held session has the value last stored under it |
| `RecentSessions.LruMap.Touch` | packages/claw/src/context-engine.ts:63-68 | the touched key goes to the end with its value, an absent key changes nothing |
| `RecentSessions.LruMap.Put` | packages/claw/src/context-engine.ts:70-78 | the eviction loop leaves exactly the newest cap entries |
| `ContextEngine.StepKeepsInv` | packages/claw/src/context-engine.ts:412-451 | every step (a learn up to its write, the end of a write, untracking, a turn of `settle`, the end of a session) keeps the invariant of claims |
| `ContextEngine.OneCurrentLearn` | packages/claw/src/context-engine.ts:417-422 | in every reachable state, a statement has one learn in flight or written at most in the set its session has, whether or not it lost an earlier one |
| `ContextEngine.ClaimedWhileCurrent` | packages/claw/src/context-engine.ts:416-432 | it is claimed there exactly while one is |
| `ContextEngine.LearnWritesIffNotCurrent` | packages/claw/src/context-engine.ts:412-421 | a learn writes exactly when its statement has none in flight or written in that set, so also once more after an eviction |
| `ContextEngine.ReturningSessionLearnsAgain` | packages/claw/src/context-engine.ts:370-421 | a run in which a session learns a statement, ends and comes back: two learns of the statement are live |
| `ContextEngine.FailureFreesItsClaim` | packages/claw/src/context-engine.ts:426-431 | a failed write releases its own claim and none made since in a newer set |
| `ContextEngine.OneLiveLearn` | packages/claw/src/context-engine.ts:417-422 | of a session that kept its set, a statement has one learn in flight or written at most |
| `ContextEngine.ClaimedWhileLive` | packages/claw/src/context-engine.ts:416-432 | it is claimed exactly while one is in flight or written |
| `ContextEngine.LearnWritesIffNew` | packages/claw/src/context-engine.ts:412-421 | a learn writes exactly when its statement has none in flight or written |
| `ContextEngine.FailureFreesTheStatement` | packages/claw/src/context-engine.ts:426-431 | after a failed write nothing holds the statement, whatever else is in flight |
| `ContextEngine.SettledMeansEnded` | packages/claw/src/context-engine.ts:441-451 | when `settle` is back, every learn begun before has ended |
| `ContextEngine.SettleIsNotStuck` | packages/claw/src/context-engine.ts:441-451 | a waiting `settle` can look again, or something it waits on can end or be untracked |
| `ContextEngine.TurnLooks` | packages/claw/src/context-engine.ts:447-451 | a turn of `settle` is back, having seen every learn, if nothing is in flight, and else waits for all that is; it changes nothing but its waiter |
| `ContextEngine.HelpIsThere` | packages/claw/src/context-engine.ts:447-451 | while a `settle` waits, a step that helps it can be taken |
| `ContextEngine.SettleComesBack` | packages/claw/src/context-engine.ts:447-451 | over any run in which no learn begins, a `settle` is back once as many steps that help it have been taken as its rank is worth |
| `ContextEngine.OneLearnMoves` | packages/claw/src/context-engine.ts:412-431 | a step begins one learn, ends the one it names or leaves all as they are, and tracks the one begun or untracks one |
| `ContextEngine.PlurContextEngine.LearnIfNew` | packages/claw/src/context-engine.ts:412-421 | on objects, a learn up to its write appends one tracked frame of its session and lower-cased statement and claims that statement, by exactly one step |
| `ContextEngine.PlurContextEngine.Ended` | packages/claw/src/context-engine.ts:422-431 | on objects, the end of a write marks its frame and releases its claim exactly when it failed, by exactly one step |
| `ContextEngine.PlurContextEngine.Turn` | packages/claw/src/context-engine.ts:447-451 | on objects, a turn of `settle` is back when nothing is in flight and else waits for what is, by exactly one step |
| `ClaudeUserConfig.AppliedTouchesPlurOnly` | packages/core/src/claude-user-config.ts:80-96 | whatever the edit, `plur` is registered and every other key and server is as it was |
| `ClaudeUserConfig.WhichEntryIsAdded` | packages/core/src/claude-user-config.ts:82-95 | an entry is added exactly where there was none, the older location's where there is one |
| `ClaudeUserConfig.WhatIsWritten` | packages/core/src/claude-user-config.ts:80-96 | what is written: the healed config where there was an entry, the healed config with the older location's entry, or the config with the caller's entry, each with its status and note |
| `ClaudeUserConfig.SecondEditIsIdle` | packages/core/src/claude-user-config.ts:80-96 | an edited config needs no second edit exactly when healing finds nothing more in it |
| `ClaudeUserConfig.Config.Apply` | packages/core/src/claude-user-config.ts:80-96 | the edit in place makes of the config what its specification says |
| `ClaudeUserConfig.MakePlan` | packages/core/src/claude-user-config.ts:173-189 | reading and editing: refused and idle runs have written nothing; a plan is the edit of the bytes read |
| `ClaudeUserConfig.CarryOut` | packages/core/src/claude-user-config.ts:191-218 | the file is replaced only when it reads as it did at the last look, with one backup of the bytes seen then, and a plan not carried out leaves no backup |
| `ClaudeUserConfig.LastBackupsAreKept` | packages/core/src/claude-user-config.ts:204-218 | the backups kept are the last ones, so the one just saved is among them |
| `ClaudeUserConfig.Attempt` | packages/core/src/claude-user-config.ts:173-219 | an attempt is given up only when the other program wrote during it |
| `ClaudeUserConfig.CreateNew` | packages/core/src/claude-user-config.ts:151-163 | a missing file is created from nothing, or not at all when somebody else creates it first |
| `ClaudeUserConfig.Register` | packages/core/src/claude-user-config.ts:125-226 | a run reports a write exactly when it made one, and that is the edit of what the file held at the last look; a refused run wrote nothing; a busy one saw as many foreign writes as attempts; undisturbed, the outcome follows from the file |
| `ClaudeUserConfig.UndisturbedIs` | packages/core/src/claude-user-config.ts:125-226 | what an undisturbed run reports: a link that leads nowhere, a file with other names and one that does not parse are refused, each with its reason, and the rest is edited |
| `ClaudeUserConfig.WhatAnIdleRunDid` | packages/core/src/claude-user-config.ts:125-226 | a run that refused or found nothing to do has written neither the file nor a backup, and the latter looked at a config the edit leaves alone |
| `ClaudeUserConfig.WhatAWritingRunDid` | packages/core/src/claude-user-config.ts:125-226 | any other run wrote exactly once, the edit of what it last saw, with that edit's status, with the bytes it saw added as the last backup before the oldest are dropped |
| `ClaudeUserConfig.OthersKeysSurvive` | packages/core/src/claude-user-config.ts:25-38 | what a run wrote reads back with `plur` registered and every other key and server as they were at the last look |
| `ClaudeUserConfig.LostOnlyAfterTheLook` | packages/core/src/claude-user-config.ts:191-218 | the file a run replaced is the one it last looked at, or one the other program left between that look and the rename |
| `Ranking.Expanded` | packages/core/src/embeddings.ts:888-896 | the product of two centred vectors is the expanded formula |
| `Ranking.ExpandedSquare` | packages/core/src/embeddings.ts:886-897 | the expanded square is the centred vector's and never negative, so `max(0, …)` never acts over the reals |
| `Ranking.CentredCosines` | packages/core/src/embeddings.ts:878-900 | the loops give every candidate the cosine of vectors literally centred on the candidates' mean |
| `Ranking.OneRanking` | packages/core/src/embeddings.ts:845-848 | there is one order by descending score that keeps ties as they came |
| `Ranking.SortDescending` | packages/core/src/embeddings.ts:845-848 | sorting gives that order |
| `Ranking.PickedAreBest` | packages/core/src/embeddings.ts:845-848 | the engrams picked off the ranking are as many as the limit allows, stand at distinct places, never rise in score, and none at another place scores more |
| `Ranking.TwoCandidatesKeepOrder` | packages/core/src/embeddings.ts:874-877 | for two unit candidates the order is that of the raw products, degenerate denominators included |
| `Ranking.EmbeddingSearch` | packages/core/src/embeddings.ts:780-848 | from any coherent cache an uncut search finds the best: as many as the limit allows, at distinct places, scores never rising, nothing left out scoring more; it is what a search that embeds everything afresh finds, every engram is then cached under the hash of its text, and other ids are as they were |
| `Ranking.SearchFindsBest` | packages/core/src/embeddings.ts:780-848 | whatever a fresh search finds is the best in that sense |
| `Ranking.OneAnswer` | packages/core/src/embeddings.ts:780-848 | that answer is one, so no cache changes it |
| `Capsule.PreambleInverse` | packages/core/src/schemas/capsule.ts:77-110 | parsing accepts exactly the serialized readable preambles |
| `Capsule.PreambleBytes` | packages/core/src/schemas/capsule.ts:77-92 | the twelve bytes: the magic, then version, flags and header length with the low byte first |
| `Capsule.AcceptedIsCapsule` | packages/core/src/capsule.ts:104-166 | an accepted buffer is preamble, header, payload and trailer end to end, and nothing more |
| `Capsule.CapsuleIsAccepted` | packages/core/src/capsule.ts:104-166 | consistent parts put end to end are accepted and split as they were |
| `Capsule.ReadsExactlyCapsules` | packages/core/src/capsule.ts:104-166 | the reader accepts exactly the capsules |
| `Capsule.DamagedPayloadIsRefused` | packages/core/src/capsule.ts:104-166 | a payload of the same length and another hash in a capsule's place of it is refused as damaged |
| `Capsule.OneSplit` | spec/vectors/build_capsules.py:95-99 | a buffer is a capsule in one way only |
| `Capsule.RoundTrip` | packages/core/src/capsule.ts:49-166 | what was written reads back: the header the options describe, as the schema accepts it (the compression or its default, both sizes, the payload's hash and the signer), the payload and the signature |
| `Capsule.WrittenBytes` | packages/core/src/capsule.ts:74-102 | the bytes written: the magic, version 1, the two flags of compression and signature, and then header, payload and signature end to end |
| `Capsule.WritesWheneverPossible` | packages/core/src/capsule.ts:49-102 | the writer succeeds exactly when a capsule of these parts exists |
| `Capsule.WriterRefusals` | packages/core/src/capsule.ts:49-102 | when the writer refuses, and with which error |
| `Capsule.NoCapsuleStartsAnother` | packages/core/src/capsule.ts:104-166 | no proper prefix and no proper extension of an accepted capsule is accepted |
| `PackIntegrity.DecodeUndoes` | spec/vectors/build.py:126-138 | a decoder undoes the version 2 framing |
| `PackIntegrity.OnlyPreImagesDecode` | spec/vectors/build.py:126-138 | and accepts nothing else |
| `PackIntegrity.PreImageInjective` | spec/vectors/build.py:123-138 | two packs have one pre-image exactly when they have the same parts, absent ones included |
| `PackIntegrity.PackIntegrityV2` | spec/vectors/build.py:126-138 | the loop hashes exactly the pre-image |
| `PackIntegrity.PackHashV2` | spec/vectors/verify.py:96-106 | so does the copy in `verify.py` |
| `PackIntegrity.V1MissesExactlyShifts` | spec/vectors/build.py:117-119 | two packs have one version 1 digest exactly when one is a boundary shift of the other |
| `PackIntegrity.V2TellsApart` | spec/vectors/build.py:126-138 | version 2 digests are equal exactly when the parts are |
| `PackIntegrity.ShiftShowsInV2Only` | spec/vectors/build.py:252-255 | a shift leaves the version 1 digest and changes the version 2 digest |
| `PackIntegrity.AbsentIsNotEmpty` | spec/vectors/build.py:129-130 | an absent part and an empty one have different digests |
| `SemVer.ParseUndoesPrint` | packages/cli/src/codex-config.ts:56-59 | every version written out is parsed back; build metadata is dropped |
| `SemVer.OnlyPrintedParse` | packages/cli/src/codex-config.ts:56-59 | nothing else is parsed |
| `SemVer.FormIs` | packages/cli/src/codex-config.ts:57 | the form that is printed: three numbers without a needless zero between dots, and after their marks a prerelease and build metadata of letters and digits of ASCII, dots and hyphens |
| `SemVer.ValidIs` | packages/cli/src/codex-config.ts:57-69 | section 9 of a parsed version: no identifier of its prerelease is empty or a number with a needless zero |
| `SemVer.NumbersDecide` | packages/cli/src/codex-config.ts:64 | the first of the three numbers that differs decides, the smaller one being the older |
| `SemVer.ReleaseIsNewer` | packages/cli/src/codex-config.ts:65-67 | a prerelease is older than its release |
| `SemVer.IdentifiersDecide` | packages/cli/src/codex-config.ts:68-74 | the first identifiers that differ decide: a number is older than a text, of two numbers the smaller, of two texts the one first in order of character codes |
| `SemVer.MoreIdentifiersAreNewer` | packages/cli/src/codex-config.ts:69-71 | where they agree as far as the shorter goes, the longer prerelease is the newer |
| `SemVer.OlderOrEqual` | packages/cli/src/codex-config.ts:60-76 | on any two texts: both parse, and they agree or the first has the lower precedence |
| `SemVer.PrecedenceTotal` | packages/cli/src/codex-config.ts:60-76 | of two valid versions exactly one has the lower precedence, unless they agree up to build metadata |
| `SemVer.PrecedenceTransitive` | packages/cli/src/codex-config.ts:60-76 | precedence of valid versions is transitive |
| `SemVer.AtMostIsPrecedence` | packages/cli/src/codex-config.ts:60-76 | on valid versions the answer is that the second has not the lower precedence of section 11 of Semantic Versioning 2.0.0 |
| `SemVer.TotalPreorder` | packages/cli/src/codex-config.ts:60-76 | on valid versions it is a total preorder, both directions exactly on versions equal up to build metadata |
| `SemVer.NumbersByValue` | packages/cli/src/codex-config.ts:72-73 | numbers without leading zeros are equal when their values are |
| `SemVer.WhenNeitherIsAtMost` | packages/cli/src/codex-config.ts:68-74 | of all parsed versions, neither is at most the other exactly when their prereleases first differ in two numbers of one value |
| `SemVer.LeadingZerosAreNotCompared` | packages/cli/src/codex-config.ts:56-76 | 1.0.0-01 and 1.0.0-1 are such versions |
| `WorkflowPins.PositionsAreExecuted` | scripts/check-workflow-pins.py:69-94 | the enumeration holds exactly what a workflow's jobs and steps, or an action's steps, use |
| `WorkflowPins.Violations` | scripts/check-workflow-pins.py:110-145 | the worklist computes the specified scan, and ends on every finite reference graph |
| `WorkflowPins.ScansOnce` | scripts/check-workflow-pins.py:116-122 | no file is scanned twice |
| `WorkflowPins.ScansReachable` | scripts/check-workflow-pins.py:110-145 | only reachable files are scanned |
| `WorkflowPins.ScansAll` | scripts/check-workflow-pins.py:116-143 | every queued file and every file a scanned one refers to is scanned |
| `WorkflowPins.LeadsToTargets` | scripts/check-workflow-pins.py:124-143 | a file leads on to the targets of the local references it executes, under their canonical paths, and to nothing else |
| `WorkflowPins.CleanScan` | scripts/check-workflow-pins.py:124-145 | the scan yields no violation exactly when every scanned file parses and everything it uses is pinned or leads to a file |
| `WorkflowPins.WhatIsReported` | scripts/check-workflow-pins.py:124-145 | by file and reference, the violations a scan lists are exactly the scanned files that do not parse and their executed uses that are no text, that are local and lead nowhere, or that are neither local nor pinned |
| `WorkflowPins.ScansExactlyTheReachable` | scripts/check-workflow-pins.py:110-145 | with one kind per file, each reachable file is scanned exactly once, and nothing else |
| `WorkflowPins.ReadsAllIffOneKind` | scripts/check-workflow-pins.py:110-145 | every reachable file is read as every kind it is reachable as exactly when none is reachable as two kinds |
| `WorkflowPins.PassesIffAllPinned` | scripts/check-workflow-pins.py:110-145 | with one kind per file, the check passes exactly when every reachable file parses and uses nothing unpinned |
| `WorkflowPins.SecondKindIsMissed` | scripts/check-workflow-pins.py:116-122 | without it an unpinned use can be passed over: a file referred to by name and then as an action is read by name only |
| `RedactSecrets.RedactSecrets` | packages/cli/src/output.ts:76-95 | the walk ends on every graph, computes the specified result and leaves the path as it found it |
| `RedactSecrets.RedactIsClean` | packages/cli/src/output.ts:22-95 | on every graph, only the marker stands under a secret key and every text is masked |
| `RedactSecrets.CircularIffComesBack` | packages/cli/src/output.ts:52-55 | the circle marker is printed exactly when some walk comes back to an object it is inside of |
| `RedactSecrets.PrintedPlaceByPlace` | packages/cli/src/output.ts:52-95 | on every graph, cyclic or not, at every place a way leads to: a text masked, an atom as it is, the circle marker for an object the way has been in, and else an array of as many items or a record of the same keys with the marker under the secret ones |
| `RedactSecrets.EveryPlaceIsReached` | packages/cli/src/output.ts:52-95 | and nothing else is printed: to every place of the result leads such a way, or one to the object whose secret key it stands under |
| `RedactSecrets.SharingDoesNotShow` | packages/cli/src/output.ts:52-95 | on acyclic graphs the result is the redacted tree unfolding |
| `Expiry.FromYearInverse` | packages/core/src/expiry.ts:57-62 | reading a date off a day number gives the real date with that number |
| `Expiry.DaysGrow` | packages/core/src/expiry.ts:57-62 | day numbers of real dates grow from date to date |
| `Expiry.RealDates` | packages/core/src/expiry.ts:57-62 | the roll-over test accepts exactly the Gregorian dates of the years from 100 on |
| `Expiry.NormalIs` | packages/core/src/expiry.ts:66-77 | a text is taken as a date exactly when it is four digits, two and two, of a real date |
| `Expiry.TextOrderIsDayOrder` | packages/core/src/expiry.ts:66-77 | text order of normalised dates is the order of their days |
| `Expiry.RefusesOnlyTheCallersDates` | packages/core/src/expiry.ts:95-132 | a call fails exactly for a caller's start that is malformed or not real, else for such an end, else for an end before the start, each with its own error |
| `Expiry.ExtractionNeverFails` | packages/core/src/expiry.ts:110-132 | what a statement says never makes a call fail, or fail otherwise |
| `Expiry.ExtractsRealDates` | packages/core/src/expiry.ts:110-180 | exactly the real dates of the years from 100 on are extracted, with a four-digit year as the date meant |
| `Expiry.WrittenIsNormal` | packages/core/src/expiry.ts:175-180 | with a four-digit year the extracted text is a normalised date of the day meant |
| `Expiry.WindowsAreOrdered` | packages/core/src/expiry.ts:95-132 | every window starts no later than it ends, if a year the statement gave has four digits |
| `Expiry.CallersDatesWin` | packages/core/src/expiry.ts:104-129 | the caller's dates are the window; an extracted end is used only without one, and with a four-digit year it is kept exactly when it does not come before the start |
| `Expiry.OrderedIffFourDigits` | packages/core/src/expiry.ts:117-180 | for an extracted date, no start gives an inverted window exactly when its year has four digits |
| `ActorKeys.Utf8ReadsBack` | packages/core/src/actor-keys.ts:72-74 | decoding the UTF-8 bytes of any identity gives it back |
| `ActorKeys.EncodeReadsBack` | packages/core/src/actor-keys.ts:70-75 | percent-decoding undoes the encoding of every identity |
| `ActorKeys.NameReadsBack` | packages/core/src/actor-keys.ts:70-76 | a name whose encoding has 120 characters at most decodes to its identity, the empty one's to the NUL character |
| `ActorKeys.LongNameIs` | packages/core/src/actor-keys.ts:76-77 | a longer name is the first 100 characters of the encoding, a hyphen and the first 16 digits of the hash |
| `ActorKeys.ShortNamesApart` | packages/core/src/actor-keys.ts:70-76 | two such identities share a name exactly when equal, or one is empty and the other NUL |
| `ActorKeys.NameIsSafe` | packages/core/src/actor-keys.ts:60-77 | every name has 1 to 120 characters, letters and digits of ASCII, dots, underscores, hyphens and percent signs only, so no separator and no control character |
| `ActorKeys.AsciiEscape` | packages/core/src/actor-keys.ts:71-74 | a character of ASCII that is not safe becomes a percent sign and its two digits, letters in upper case |
| `ActorKeys.SafeStays` | packages/core/src/actor-keys.ts:71-72 | an identity of safe characters is its own encoding |
| `ActorKeys.OnlyOneLengthMeets` | packages/core/src/actor-keys.ts:76-77 | a short identity shares its name with a long one only if its encoding has 117 characters |
| `ActorKeys.MeetsExactlyAtBoundaries` | packages/core/src/actor-keys.ts:76-77 | a long identity shares its name with some short one exactly when the 100 characters its name keeps end between the encodings of two characters |
| `ActorKeys.LongNamesApart` | packages/core/src/actor-keys.ts:77 | two long identities share a name exactly when encodings and hashes start alike |
| `ActorKeys.KeysRegistry.Register` | packages/core/src/actor-keys.ts:274-301 | afterwards the list is the old one with the identity's entry replaced in place, or with its entry at the end, or as it was; the identity has the key, every other one what it had, and identities stay distinct |
| `Strength.DecayOnlyTowardsFloor` | packages/core/src/decay.ts:17-24 | decay never raises a strength and never crosses the floor |
| `Strength.DecayByTheDay` | packages/core/src/decay.ts:17-24 | every day takes its constant part of what a strength has above the floor, so it does fall |
| `Strength.DecayAdds` | packages/core/src/decay.ts:17-24 | decaying for m and then n days is decaying for m + n |
| `Strength.DecayKeepsOrder` | packages/core/src/decay.ts:17-24 | the stronger of two memories stays the stronger |
| `Strength.Engram.ApplyFeedbackSignal` | packages/core/src/feedback.ts:86-127 | one verdict in place changes strength, counters, commitment and anchor as its specification says, the strength by the stated amounts |
| `Strength.OneVerdict` | packages/core/src/feedback.ts:86-113 | a positive verdict adds 0.05 up to 1, a negative one takes 0.1 down to 0, a neutral one leaves the strength; each counts once in its own counter |
| `Strength.OneStepOfCommitment` | packages/core/src/feedback.ts:61-104 | a deliberate positive verdict takes the commitment one step towards `decided`, and nothing else moves it |
| `Strength.RunKeepsBounds` | packages/core/src/feedback.ts:86-113 | over every run of verdicts strength stays between 0 and 1 and each counter grows by exactly its verdicts |
| `Strength.CommitmentCountsEndorsements` | packages/core/src/feedback.ts:96-104 | the commitment advances once for each deliberate positive verdict and by nothing else |
| `Strength.CommitmentNeverDrops` | packages/core/src/feedback.ts:61-70 | it never drops in rank, never becomes locked, and unknown levels never change |
| `Strength.ConfidenceIs` | packages/core/src/confidence.ts:20-42 | with feedback the confidence is the curve at the net count over one more than all of them, with the bonus of a consolidated memory, kept between 0 and 1 |
| `Strength.AnchorIsLastVerdict` | packages/core/src/feedback.ts:111-127 | decay is anchored on the day of the last verdict that was not neutral |
| `Strength.ConfidenceFollowsVerdicts` | packages/core/src/confidence.ts:20-42 | with prior feedback a positive verdict never lowers and a negative one never raises the confidence |
| `Strength.FirstVerdict` | packages/core/src/confidence.ts:20-42 | the first verdict too, for every curve that is 0.45 at most at -0.5, as the code's is (about 0.27): a positive one never lowers and a negative one never raises it |
| `Strength.FirstVerdictOnCurves` | packages/core/src/confidence.ts:20-42 | for curves in general, a first negative verdict raises it exactly when a consolidated memory's bonus outweighs the curve |

## Left out

- FolderMapText.Find: two `path` values that are lists or mappings count as the same when they read the same, where the code compares objects and finds them different.
- FolderMapRead.NewFileReads: what is written must be on one line and stand after a blank; an empty value replaced right after its colon, a text of several lines, and a last value whose own newline ends the file are left to the code's check of its result, which then falls back to a full rewrite.
- EmbeddingCache.CacheFiles.MergeEmbeddingsIntoCache: the merge's first read takes no lock, and no other process is modelled between it and the fold.
- The YAML, TOML, JSON and JSONC parsers, and all matching of text by patterns (expiry phrases, URL credentials, pinned references): their results are inputs. The pattern for versions is the exception.
- `folder-map-text.ts`: a file without a `folders` key or with an empty list, keys that are not plain, undefined values, and the full rewrite used when the in-place edit gives up.
- `embeddings.ts`: delta lines that are JSON but not records, the size threshold that decides when to fold, its timers and deadlines, and reads that fail half way; kept delta lines that are not UTF-8, which a rewrite replaces. Taking the lock is one step that may not happen.
- `context-engine.ts`: what is written by a learn, the scope and message maps beyond what every bounded map does, and `dispose`.
- `claude-user-config.ts`: re-pointing the link during a run, file modes, the order of backups with one time stamp, clashes of backup names, and calls that remove files and fail. JSON objects are maps, so the order of keys is not modelled.
- `capsule.ts`: the schema's own rules (a parameter that may refuse a header or fill in defaults of its metadata) and the clock.
- `codex-config.ts`: numeric identifiers beyond 2^53, which the code rounds, and the edit of the TOML file.
- `check-workflow-pins.py`: line numbers in messages, and links that lead out of the repository, on which the code stops with an error.
- `output.ts`: the order of keys that look like integers, and objects' own JSON forms, which pass through.
- `actor-keys.ts`: identities with lone surrogates, reading and writing the registry file, key generation and signatures.
- `feedback.ts` with counts or dates that are not numbers, and the other ways confidence is computed.
- Floating-point rounding throughout.
- Model loading, network, git and the setup commands: decided by reading one branch, or foreign code.

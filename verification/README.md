# Aemeath in Dafny

A model of the self-contained algorithms of the Aemeath repository, with proofs of
what they promise. `dafny verify dfyconfig.toml` checks all of it.

| module | what it models |
|---|---|
| `Base62`, `Snowflake`, `TypedIds` | the lock-free id generator, its base-62 codec, and prefixed ids |
| `Interleave` (with `Text`, `Order`) | splitting a message at image placeholders and printing it back |
| `FileTree`, `MigrationPlan`, `MigrationRetry`, `StateMigration`, `MigrationOutcome` | the migration of the state directory, its retry and its rollback |
| `Aging`, `DiskCleanup`, `CleanupGuarantees`, `CleanupNames`, `FaceSweep` | retention cleanup of sessions and of the flat faces |
| `IssueGraph` | the issue graph walk and the totals of its report |
| `CyclicShift` | averaging a choice over cyclic shifts of its options |
| `Json`, `SchemaGen`, `SchemaTree`, `DocWords` | the schema generator that splices JSON text |
| `Validator`, `ToolInput` | the validator of a tool's input, alone and together with the generator |
| `TokenBudget`, `StringIdx` | token estimates and truncation; byte, character and column positions |
| `Tokenizer`, `Lexical`, `LexicalLaws`, `Score`, `CalibrationLaws` | the BM25 baseline and the evaluation metrics |

Conventions. Code that updates state is a class or a method with loops, proved
against a specification function; what the code promises is proved about that
function. Concurrency is a state machine: a run is any sequence of loads, clock
readings and swaps by any threads. A file system is a finite map from paths to
entries; `Disk.trace` records every state it goes through, so a crash is any of
these states, and `broken` or `failing` names what cannot be read, written or
deleted. Probabilities, rates and scores are exact reals. A random, clock-dependent
or remote value (time stamps, the model call, the issue API, display widths,
logarithm, lower-casing, letter classes) is a parameter.

Where code and documentation differ, the model follows the code:

* ids.rs:199 and 224 speak of 41 time bits; shifting a 64-bit word by 22 keeps 42
  (`Snowflake.FieldsKept`).
* The header of state_layout_migration.rs (line 11) says an existing leaf is skipped
  and nothing is merged; the code merges file by file and fills empty files
  (lines 91-94, 331-355). "Never overwrites" is stated for files with content
  (`MigrationPlan.NothingOfTheUsersIsLost`).
* The comment at state_layout_migration.rs:67 wants retries protected. After a crash
  a retry is invisible; after a failed copy it need not be, because the loops go on and
  the older `tool-results` can come first. Where both sources hold a file, a retry may
  keep the older one (`MigrationRetry.EndsAsPlannedExactlyWhen`); where the newer one
  holds a directory, every retry may be blocked (`NeverBlockedExactlyWhen`).
* The comment at state_layout_migration.rs:144 says that an error of the rollback never
  deletes the new directory. The code removes it before it copies the backup, so a
  failing copy leaves it gone; a backup inside the state directory is lost with it
  (`StateMigration.RollbackStateLayout`).
* The header of disk_cleanup.rs (line 13) says cleanup is idempotent. It is not
  (`CleanupGuarantees.NotIdempotent`); `IdempotentExactlyWhen` and `ThirdRunRests`
  say, for any store, when it is and how soon it comes to rest.
* session.rs:115 says images follow the order of the placeholders in the text. Those
  that are placed do; the unplaced ones follow in the order of their ids as strings,
  so `[Image #10]` comes before `[Image #2]`.
* The header of schema_validator.rs (line 15) says nullable fields accept null. The
  enum is checked after the type, so a nullable enum refuses it
  (`ToolInput.NullableRefusesNull`); `Validator.NullableTakesNull` says when it holds.
* is_option_type (build.rs:229-236) looks at the outermost name only, so
  `Box<Option<T>>` and `&Option<T>` are nullable and required at once.

## Model

| member | source | states |
|---|---|---|
| `Base62.EncodeFixed` | agent/shared/src/ids.rs:270-279 | Filling eleven slots from the right gives the unique eleven-digit positional form of the number. |
| `Base62.Decode` | agent/shared/src/ids.rs:282-297 | The checked multiply-and-add loop returns the positional value, and nothing exactly for an empty text, one longer than eleven, one with a foreign character, or a value of 2^64 or more. |
| `Base62.DecodeEncode` | agent/shared/src/ids.rs:269-297 | Every 64-bit number survives encoding and decoding. |
| `Base62.EncodeDecode` | agent/shared/src/ids.rs:269-297 | Every eleven-character text that decodes is the encoding of what it decodes to. |
| `Base62.EncodeOrdered` | agent/shared/src/ids.rs:199-202 | The encoding is strictly order-preserving from numbers to strings, in both directions. |
| `Order.PrecedesIsLess` | agent/shared/src/ids.rs:199-202 | The string comparison a program computes is the order in which the first differing character decides and a proper prefix comes first; Rust and Python sort by it. |
| `Snowflake.StepKeepsInv` | agent/shared/src/ids.rs:233-260 | Every load, clock reading or compare-and-swap of any thread keeps the invariant: the history of words is strictly increasing, ends in the current word, holds one more entry than ids were returned, and every thread's snapshot is an entry of it. |
| `Snowflake.Reachable` | agent/shared/src/ids.rs:227-261 | The invariant holds after every interleaving of any number of threads, with any clock readings. |
| `Snowflake.HistoryOnlyGrows` | agent/shared/src/ids.rs:246-254 | Whatever happens later, the shared word never decreases and no published id or word is revised. |
| `Snowflake.SwapSeesNoInterference` | agent/shared/src/ids.rs:234-254 | No ABA: when a swap succeeds, no other swap has succeeded since its load. |
| `Snowflake.FailsOnlyByOthers` | agent/shared/src/ids.rs:234-254 | Lock-freedom: a swap that is ready and has a sequence number left fails exactly if another swap has succeeded since its load. |
| `Snowflake.MillisWereRead` | agent/shared/src/ids.rs:236-241 | The millisecond part of the shared word is always one that some thread read from the clock. |
| `Snowflake.OrIsPlus` | agent/shared/src/ids.rs:246-258 | OR, bit by bit, of a multiple of 2^k and a number below 2^k is their sum. |
| `Snowflake.OrByBits` | agent/shared/src/ids.rs:246-258 | A bit of the OR is set exactly if it is set in one of the two. |
| `Snowflake.StatePackedWithOr` | agent/shared/src/ids.rs:246 | The shared word packed with `/`, as the source writes it, is the model's sum. |
| `Snowflake.IdPackedWithOr` | agent/shared/src/ids.rs:256-258 | The id packed with two `/`, as the source writes it, is the model's sum, for every 48-bit millisecond, before the epoch as well. |
| `Snowflake.FieldsKept` | agent/shared/src/ids.rs:256-258 | An id gives back sequence and process number, and its time field is the elapsed milliseconds exactly when these lie between 0 and 2^42. |
| `Snowflake.IdsEqualWhen` | agent/shared/src/ids.rs:256-258 | Two words of one process give the same id exactly when their sequence numbers agree and their milliseconds differ by a multiple of 2^42. |
| `Snowflake.IdsDistinct` | agent/shared/src/ids.rs:226-261 | In every interleaving whose stored milliseconds span less than 2^42, all returned ids differ, wherever the clock stood and however it ran. |
| `Snowflake.IdsIncrease` | agent/shared/src/ids.rs:226-261 | In every interleaving whose first stored millisecond is at or past the epoch and whose last is less than 2^42 after it, ids increase in the order of the swaps and show their millisecond. |
| `Snowflake.IdsLessWhen` | agent/shared/src/ids.rs:256-258 | Of two words of one process, one gives the smaller id exactly when its time field, the milliseconds since the epoch modulo 2^42, is smaller, or equal with a smaller sequence number. |
| `Snowflake.WordsArePaced` | agent/shared/src/ids.rs:237-241 | In every interleaving each stored word is the one before plus one, in the same millisecond, or sequence zero of a later millisecond. |
| `Snowflake.SwapsExactlyWhen` | agent/shared/src/ids.rs:234-254 | A ready thread whose clock is not past the millisecond of the word can swap exactly while the word's sequence number is below 4095 and nobody has swapped since its load; what it then stores is the word plus one, or sequence zero of its own millisecond if the clock is past the word's. |
| `Snowflake.IncreaseExactlyWhen` | agent/shared/src/ids.rs:226-261 | In every interleaving, whatever the clock: ids increase in the order of the swaps exactly when the time field grows whenever a new millisecond is stored. |
| `Snowflake.IncreaseWithinAnEra` | agent/shared/src/ids.rs:226-261 | While the stored milliseconds span less than 2^42, the first and the last of them decide: ids increase exactly when no multiple of 2^42, counted from the epoch, lies between them; so a run wholly before the epoch increases too. |
| `Snowflake.WithoutTheBounds` | agent/shared/src/ids.rs:256-258 | Runs in which ids do not increase can be reached: a first reading before and a second after the epoch gives the smaller id second, and readings 2^42 ms apart give one id twice. |
| `TypedIds.NewTypedId` | agent/shared/src/ids.rs:203-209 | Prefix, separator and encoded number, in this order. |
| `TypedIds.IsTypedId` | agent/shared/src/ids.rs:212-222 | The shape test accepts exactly the values that some 64-bit number yields with this prefix. |
| `TypedIds.ValidExactlyWhenIssued` | agent/shared/src/ids.rs:211-222 | The same as a statement on texts, in both directions. |
| `TypedIds.PrefixAndNumberAreDetermined` | agent/shared/src/ids.rs:203-222 | No text is an id of two prefixes, and an id determines its number. |
| `TypedIds.SamePrefixOrder` | agent/shared/src/ids.rs:197-202 | Ids of one prefix sort as their numbers do. |
| `TypedIds.PublicationOrder` | agent/shared/src/ids.rs:197-261 | Over every interleaving within the bounds, an id sorts before another exactly when its swap came first. |
| `TypedIds.PublicationOrderExactlyWhen` | agent/shared/src/ids.rs:197-261 | Over any interleaving, ids of one prefix sort in publication order exactly when the time field grows whenever a new millisecond is stored. |
| `Interleave.UserWithImages` | packages/sdk/src/session.rs:121-216 | The method builds exactly the block list that the recursive splitter describes, on all three paths (no image, no placeholder, interleaved). |
| `Interleave.Interleave` | packages/sdk/src/session.rs:157-206 | The scanning loop over cursor, used flags and content produces the split; it ends for empty and repeated placeholders because every round uses up an image. |
| `Interleave.NextPlaceholder` | packages/sdk/src/session.rs:161-172 | The inner loop finds the earliest occurrence of an unused id at or after the cursor, the first image winning a tie. |
| `Interleave.AppendUnplaced` | packages/sdk/src/session.rs:195-206 | The images never placed follow at the end, in sorted order. |
| `Text.FindIsFirst` | packages/sdk/src/session.rs:166 | `find` returns the first occurrence from a position on, and nothing only if there is none. |
| `Interleave.EarliestIsFirst` | packages/sdk/src/session.rs:161-172 | No occurrence of any id lies before the one chosen; at the same place none has a smaller index. |
| `Interleave.SortByIdSorts` | packages/sdk/src/session.rs:153-155 | The sort orders by id, keeps every image, and keeps the given order among images of one id. |
| `Interleave.ImagesConserved` | packages/sdk/src/session.rs:121-216 | Every input image occurs in the message exactly as often as it was given. |
| `Interleave.Prints` | packages/sdk/src/session.rs:236-248 | The printed text is the original followed by the ids of the unplaced images; when no placeholder occurs, all ids come first. |
| `Interleave.PrintedInOrder` | packages/sdk/src/session.rs:236-248 | Blocks print one after the other. |
| `Interleave.OnePrints` | packages/sdk/src/session.rs:239-246 | A text prints as it stands, an image as the id it carries, an image without one and any other block as nothing. |
| `Interleave.NothingLeftToPlace` | packages/sdk/src/session.rs:173-191 | When the scan ends, no unplaced id occurs in the rest of the text, and the rest is a tail of the text. |
| `Interleave.SplitCanonical` | packages/sdk/src/session.rs:174-194 | A split has no empty text, no two texts side by side, and no text in which the id of a later image occurs, whatever the ids. |
| `Interleave.SplitUndoesPrint` | packages/sdk/src/session.rs:121-248 | Splitting the printed text of such a block list gives the block list back. |
| `Interleave.RoundTrip` | packages/sdk/src/session.rs:121-248 | For bracketed distinct placeholders, feeding the printed text and the images back gives the same message exactly when the text was not empty or there was no image. |
| `FileTree.Disk.CopyTree` | agent/composition/src/state_layout_migration.rs:314-401 | Both recursive copies (merging and overwriting), for any listing order: on success every path holds the copied value and nothing clashed; at every moment each path holds its old or its copied value; without failing operations a copy fails only on a clash. |
| `FileTree.Disk.CopyFile` | agent/composition/src/state_layout_migration.rs:356-362 | One file copy is one step: it happens in full or not at all, and not onto a directory. |
| `FileTree.Disk.CopyOneFile` | agent/composition/src/state_layout_migration.rs:333-362 | What happens to one file of a walk: an existing target stays unless it is empty and the source is not. |
| `FileTree.Disk.MakeTarget` | agent/composition/src/state_layout_migration.rs:319-320 | The target directory is made if it is not there, and fails on a file. |
| `FileTree.Disk.RemoveAll` | agent/composition/src/state_layout_migration.rs:150-153 | Removing a directory removes exactly what lies at or under it. |
| `MigrationPlan.StartingOver` | agent/composition/src/state_layout_migration.rs:83-130 | Doing the whole plan after any first part of it gives what doing the plan once gives, at every path. |
| `MigrationPlan.SourcesStay` | agent/composition/src/state_layout_migration.rs:84-87 | No job writes where any job reads. |
| `MigrationPlan.OthersStay` | agent/composition/src/state_layout_migration.rs:83-130 | No job touches backups, the marker or the guidance file. |
| `MigrationPlan.TwoSourcesOfOneLeaf` | agent/composition/src/state_layout_migration.rs:83-118 | Of the seventeen jobs only those of the two `tool-results` directories can ever write the same path. |
| `MigrationPlan.LeafNamesDiffer` | agent/composition/src/state_layout_migration.rs:208-216 | The leaf names are pairwise distinct and `tool-results` is one of them. |
| `MigrationPlan.NothingOfTheUsersIsLost` | agent/composition/src/state_layout_migration.rs:8-11 | In every state a run can be stopped in, failing operations included: sources and the backups of other runs are exactly as before; outside the one backup being written and the marker no entry is gone or changed its kind, and every file with content is as before, but for a guidance file that held the bootstrap body. |
| `MigrationPlan.CrashAndRetryIsInvisible` | agent/composition/src/state_layout_migration.rs:83-138 | Stopped anywhere and started again, the migration ends with the same entry at every path as a run never stopped, whichever of two sources feeds a path, older backups included; only the backups of the two runs and the marker's body carry the time of the run. |
| `MigrationPlan.CrashesAddUp` | agent/composition/src/state_layout_migration.rs:83-138 | However often the migration is stopped and started again, what is left could have been left by being stopped once. |
| `MigrationPlan.CrashesAreInvisible` | agent/composition/src/state_layout_migration.rs:83-138 | After any number of crashes a successful run leaves the same entry at every path as a run never stopped, backups of other runs included, and meets no clash that run does not meet. |
| `MigrationPlan.RetryIsNotBlocked` | agent/composition/src/state_layout_migration.rs:83-138 | If a whole run meets no clash, a retry from any crash state meets none. |
| `MigrationPlan.RetryAfterFailure` | agent/composition/src/state_layout_migration.rs:93-117 | After a failed (not crashed) run the loops have gone on, so at a path a retry gives the intended value exactly unless the job of the first `tool-results` missed the path, that of the second did not, and their order matters there. |
| `MigrationPlan.RetryExactlyWhen` | agent/composition/src/state_layout_migration.rs:83-138 | On whole trees: from any state a failed run leaves, a later successful run ends as planned from the first tree at every path exactly when nowhere, where the order of the two sources matters, the older one had come first; the guidance file and the backups of other runs are right in any case. |
| `MigrationPlan.RetryMakesUpForFailures` | agent/composition/src/state_layout_migration.rs:83-138 | Where the order matters nowhere, a retry ends as planned after any failures. |
| `MigrationRetry.EndsAsPlannedExactlyWhen` | agent/composition/src/state_layout_migration.rs:83-138 | On any tree on which a whole run meets no clash: every retry after a failure that gets through ends as planned from the first tree, if and only if nowhere the two `tool-results` sources hold different files with content for a path where the target has nothing or an empty file. |
| `MigrationRetry.NeverBlockedExactlyWhen` | agent/composition/src/state_layout_migration.rs:319-320 | On such a tree: no failure leaves a state that blocks a retry, if and only if nowhere the newer source has a directory, the older one a file and the target nothing. |
| `MigrationRetry.BlockedForGood` | agent/composition/src/state_layout_migration.rs:319-320 | Once the older file stands where the newer source has a directory, whatever a further run does leaves it there, so every later retry is blocked. |
| `MigrationRetry.RetrySafeExactlyWhen` | agent/composition/src/state_layout_migration.rs:83-138 | Both together: after every failure a retry is not blocked and ends as planned, if and only if the order of the two sources matters nowhere. |
| `MigrationRetry.OrderMattersIn` | agent/composition/src/state_layout_migration.rs:331-355 | Where a whole run meets no clash, the order of the sources matters in just these two ways. |
| `MigrationRetry.DoneIsTree` | agent/composition/src/state_layout_migration.rs:80-117 | Jobs of the plan done without a clash, the state root first, leave a well-formed tree. |
| `MigrationRetry.RetryCanDiffer` | agent/composition/src/state_layout_migration.rs:93-117 | Where two files conflict: if copying just that file of the newer source fails, the state left is a well-formed tree that blocks no retry, and a successful retry leaves another file than planned. |
| `MigrationRetry.RetryBlocked` | agent/composition/src/state_layout_migration.rs:93-117 | Where a directory and a file conflict there is a failure after which the retry is blocked. |
| `MigrationRetry.FilesMayConflict` | agent/composition/src/state_layout_migration.rs:93-117 | There are well-formed trees of the first kind on which a whole run meets no clash. |
| `MigrationRetry.KindsMayConflict` | agent/composition/src/state_layout_migration.rs:93-117 | And of the second kind. |
| `MigrationPlan.WhenOrderMatters` | agent/composition/src/state_layout_migration.rs:331-355 | Which paths those are: the target has nothing of its own there, and the two sources disagree, both with content or one with a directory. |
| `StateMigration.MigrateStateLayout` | agent/composition/src/state_layout_migration.rs:52-140 | With the marker present nothing is written. Success leaves exactly the completed tree, reports the backup, and every state on the way was a crash state; failure leaves no marker and only planned values; in every state on the way older backups are as they were and each entry of the new one is as before or as finished; without failing operations it succeeds exactly if nothing is in the way. |
| `StateMigration.RunMerges` | agent/composition/src/state_layout_migration.rs:83-123 | The loops over leaves, historical leaves and private directories: each job runs even after another has failed, and the result is the plan's value at every path if none failed. |
| `StateMigration.DoJob` | agent/composition/src/state_layout_migration.rs:86-101 | One job: a missing source is skipped, otherwise the merge is done in full or fails. |
| `StateMigration.BackUp` | agent/composition/src/state_layout_migration.rs:67-78 | A state directory with entries is copied aside before anything else; nothing outside this run's backup changes, and inside it each entry is as before or as the state has it. |
| `StateMigration.MakeAllDirs` | agent/composition/src/state_layout_migration.rs:80-81 | `create_dir_all` makes exactly the missing directories of the path. |
| `StateMigration.MigrateGuidance` | agent/composition/src/state_layout_migration.rs:218-271 | The guidance file is copied unless the target has content other than the bootstrap body, or the source is empty; which entry then is where, `MigrationOutcome.GuidanceArrives` says. |
| `StateMigration.MarkedIsComplete` | agent/composition/src/state_layout_migration.rs:132-139 | The marker is written last, onto a tree in which all jobs are done. |
| `MigrationOutcome.LeafArrives` | agent/composition/src/state_layout_migration.rs:84-91 | In the completed tree, at and below `state/<leaf>`, for each leaf but `tool-results`, every path holds what it held, or what the old leaf has there where it held nothing or an empty file. |
| `MigrationOutcome.PrivateArrives` | agent/composition/src/state_layout_migration.rs:119-123 | The same for the private directories. |
| `MigrationOutcome.ResultsArrive` | agent/composition/src/state_layout_migration.rs:93-117 | `tool-results` takes from the newer source first, then, where still nothing or an empty file stands, from the older one. |
| `MigrationOutcome.GuidanceArrives` | agent/composition/src/state_layout_migration.rs:124-130 | In the completed tree the guidance file is the old one if the old one is a file and there was none, or if the old one has content and there was an empty file or the bootstrap body; in every other case it is as before. |
| `MigrationOutcome.BackupArrives` | agent/composition/src/state_layout_migration.rs:67-78 | A state directory with entries is found again, entry for entry, in the backup, and the marker is there. |
| `MigrationOutcome.NothingElseChanges` | agent/composition/src/state_layout_migration.rs:52-140 | Every path neither above nor below the state directory, and not at or below a private directory, the guidance file or this run's backup, is as before. |
| `StateMigration.RollbackStateLayout` | agent/composition/src/state_layout_migration.rs:145-156 | A missing backup is refused, and a state directory that cannot be removed is left, with nothing changed. Success makes the state directory exactly the backup. If the restore fails the former state is gone and only entries of the backup are there; a backup inside the state directory goes with it and leaves nothing to restore. Which of these happens without failing operations is stated exactly. |
| `StateMigration.RollbackUndoesMigration` | agent/composition/src/state_layout_migration.rs:142-156 | Migrating a non-empty state directory and rolling back to the reported backup restores it entry for entry, without the marker, exactly when the backup path held nothing beyond the state before; nothing outside the state directory changes in the rollback. |
| `Aging.PathSize` | agent/composition/src/disk_cleanup.rs:67-85 | The size of an entry is the sum of its files. |
| `Aging.NewestMtime` | agent/composition/src/disk_cleanup.rs:92-127 | The newest time of the files and empty directories inside; the time of a directory that holds something does not count. |
| `Aging.IsExpired` | agent/composition/src/disk_cleanup.rs:129-134 | Expired means that every such time is at least so many whole days back; a time in the future is never expired. |
| `Aging.TimesAreOfLeaves` | agent/composition/src/disk_cleanup.rs:92-127 | The times that count are those of the files and empty directories found inside, however deep. |
| `Aging.SomeTime` | agent/composition/src/disk_cleanup.rs:129-134 | Some time always counts, and a file expires after exactly so many days of its own. |
| `Aging.SizeAddsUp` | agent/composition/src/disk_cleanup.rs:67-85 | A directory takes up what its entries take up together, and nothing if there are none. |
| `DiskCleanup.Sweeper.SweepSessions` | agent/composition/src/disk_cleanup.rs:226-343 | The whole session face, dry or real, with any set of entries that cannot be deleted: final store, reported labels and bytes; zero days switch it off. |
| `DiskCleanup.Sweeper.SweepDatasets` | agent/composition/src/disk_cleanup.rs:247-289 | The loop over datasets in any listing order, each judged on the store as it then is. |
| `DiskCleanup.Sweeper.ReclaimCompanions` | agent/composition/src/disk_cleanup.rs:348-383 | One session: what exists of its companions goes, one label is reported, marked if some deletion failed. |
| `DiskCleanup.Sweeper.RemoveEntry` | agent/composition/src/disk_cleanup.rs:136-145 | An entry is deleted whole and its size returned, or nothing changes. |
| `DiskCleanup.Sweeper.SweepOrphans` | agent/composition/src/disk_cleanup.rs:387-433 | One root: exactly the expired entries whose owner has no dataset go. |
| `DiskCleanup.Sweeper.SweepAllOrphans` | agent/composition/src/disk_cleanup.rs:291-340 | The three calls together. |
| `Text.Before` | agent/composition/src/disk_cleanup.rs:331 | The part of a ledger name before its first dot. |
| `CleanupGuarantees.ExactlyTheseGo` | agent/composition/src/disk_cleanup.rs:216-224 | When an entry is read as belonging to just the session that would take it along, a run removes exactly the entries of due sessions and the expired orphans, whatever the listing order and whatever fails. |
| `CleanupGuarantees.ProtectedStays` | agent/composition/src/disk_cleanup.rs:262-311 | When every entry is read as belonging to just the session that would take it along, nothing of a session that is there and not due is ever removed; on the names themselves, `CleanupNames.SurvivesExactlyWhen` and what follows it. |
| `CleanupGuarantees.DueGoesAltogether` | agent/composition/src/disk_cleanup.rs:218-222 | Without failures, and if each entry goes at most once, a due dataset goes together with its lock, background-process, tool-results and ledger entries. |
| `CleanupGuarantees.SafeExactlyWhen` | agent/composition/src/disk_cleanup.rs:269-287 | On any store: no protected entry is ever removed, in whatever listing order and whatever deletions fail, if and only if no due session's names or ledger prefix match one. |
| `CleanupGuarantees.PlainOwnersAgree` | agent/composition/src/disk_cleanup.rs:291-340 | Ids without dots, not empty, not starting like a ledger, and none a prefix of another, meet the condition. |
| `CleanupGuarantees.PrefixIdsAreUnsafe` | agent/composition/src/disk_cleanup.rs:276-286 | An id that is a prefix of another takes the other's ledger along. |
| `CleanupGuarantees.EmptyIdIsUnsafe` | agent/composition/src/disk_cleanup.rs:274 | A dataset named `.dataset` takes the tool results of every session along. |
| `CleanupGuarantees.DryRunPredicts` | agent/composition/src/disk_cleanup.rs:13 | If no entry goes with two due sessions, or with one and as an orphan, a dry run and a failure-free run from one store report the same sessions, orphans and bytes, whatever order each lists the datasets in. |
| `CleanupGuarantees.PreviewsAgree` | agent/composition/src/disk_cleanup.rs:247-289 | A dry run's labels and bytes do not depend on the listing order. |
| `CleanupGuarantees.DryRunExactlyWhen` | agent/composition/src/disk_cleanup.rs:13 | On any store and for any two listing orders: the entries a dry run previews are those a failure-free run removes, each once, if and only if that condition holds. |
| `CleanupGuarantees.BytesBalance` | agent/composition/src/disk_cleanup.rs:376-382 | The reported bytes are the size of the store before minus after, on every store and whatever fails. |
| `CleanupGuarantees.SecondRunTakesOrphans` | agent/composition/src/disk_cleanup.rs:291-340 | On any store: a second failure-free run at the same moment removes exactly the expired entries whose owner has no dataset after the first. |
| `CleanupGuarantees.IdempotentExactlyWhen` | agent/composition/src/disk_cleanup.rs:13 | On any store: the second run removes nothing if and only if no expired entry that is left belongs to a session the first run has cleared. |
| `CleanupGuarantees.ThirdRunRests` | agent/composition/src/disk_cleanup.rs:13 | On any store a third run removes nothing. |
| `CleanupGuarantees.SecondRunTakesLeftovers` | agent/composition/src/disk_cleanup.rs:314-340 | Where the two readings of ownership agree, the second run removes exactly the leftovers of sessions the first one cleared. |
| `CleanupGuarantees.IdempotentWithoutLeftovers` | agent/composition/src/disk_cleanup.rs:13 | Where they agree, the second run removes nothing if and only if the first store holds no such leftover. |
| `CleanupGuarantees.LeftoverIsVariant` | agent/composition/src/disk_cleanup.rs:323-327 | Such leftovers are `.dataset.stale-revision-*` or `.dataset.bak.*` entries. |
| `CleanupGuarantees.NotIdempotent` | agent/composition/src/disk_cleanup.rs:13 | A store on which the two readings agree and the second run removes a leftover. |
| `CleanupGuarantees.NotIdempotentWithoutLeftovers` | agent/composition/src/disk_cleanup.rs:13 | A store on which they differ and the second run removes an entry although there is no leftover. |
| `CleanupNames.StaleIsOwned` | agent/composition/src/disk_cleanup.rs:323-327 | `<id>.dataset.stale-revision-<rest>`, the id without a dot, is read as belonging to `<id>` exactly if it does not end in `.dataset`. |
| `CleanupNames.BackupIsOwned` | agent/composition/src/disk_cleanup.rs:323-327 | `<id>.dataset.bak.<rest>` exactly if it also holds no stale-revision marker. |
| `CleanupNames.LedgerIsOwned` | agent/composition/src/disk_cleanup.rs:329-333 | `accepted-input-ledger-<id>.<rest>` exactly if it neither ends in `.dataset` nor holds one of the two markers. |
| `CleanupNames.OthersAreOwned` | agent/composition/src/disk_cleanup.rs:291-340 | A ledger without a dot, locks, background-process entries and tool results belong to the id in their name. |
| `CleanupNames.SurvivesExactlyWhen` | agent/composition/src/disk_cleanup.rs:216-433 | On any store an entry survives every run, whatever the listing order and whatever fails, if and only if no due session covers it and it is fresh, nobody's, or of a session whose dataset is there. |
| `CleanupNames.StaleSurvives` | agent/composition/src/disk_cleanup.rs:323-327 | A stale revision of a session whose dataset is there survives every run if and only if its name does not start like a ledger of a due session. |
| `CleanupNames.BackupSurvives` | agent/composition/src/disk_cleanup.rs:323-327 | So does a backup of it. |
| `CleanupNames.LedgerSurvives` | agent/composition/src/disk_cleanup.rs:276-286 | Its ledger survives if and only if no due id is a prefix of what follows the ledger marker. |
| `CleanupNames.CompanionsSurvive` | agent/composition/src/disk_cleanup.rs:269-275 | Its lock, background-process entry and tool results survive if and only if it is not due itself, and, for tool results, neither the empty id nor `.` is due. |
| `CleanupNames.DueGoesByName` | agent/composition/src/disk_cleanup.rs:269-286 | Without failures a due session goes with its lock, background-process entry, tool results and every name that starts like its ledger. |
| `CleanupNames.ReportsWhatHappened` | agent/composition/src/disk_cleanup.rs:366-382 | If each entry goes at most once, whatever fails: a session is reported exactly if its dataset is due, and marked as partly removed exactly if some entry of it is still there. |
| `FaceSweep.Face.SweepFace` | agent/composition/src/disk_cleanup.rs:151-207 | A flat face over several roots: a real run is rid of exactly the expired entries that can be deleted, a dry run changes nothing and lists what it saw; entries are counted as scanned as each root has them when its turn comes, and failures once for each time their root is named; zero days switch the face off. |
| `FaceSweep.EntryByEntry` | agent/composition/src/disk_cleanup.rs:151-207 | Entry by entry: a real run is rid of what is expired, under one of the roots and can be deleted, and lists each once; a dry run lists what is expired as often as its root is named. |
| `FaceSweep.LookedAtOnce` | agent/composition/src/disk_cleanup.rs:171-180 | Where no root is named twice, dry and real runs look at all entries of the roots, each once. |
| `FaceSweep.FailsOnce` | agent/composition/src/disk_cleanup.rs:196-203 | And as many deletions fail as expired entries are left. |
| `FaceSweep.DryRunPredictsFace` | agent/composition/src/disk_cleanup.rs:180-203 | The dry run lists what a failure-free run removes if and only if no root named twice holds anything due. |
| `FaceSweep.DryRunPredictsSize` | agent/composition/src/disk_cleanup.rs:180-203 | The bytes agree if and only if no root named twice holds anything due that takes up space; otherwise the dry run counts more. |
| `FaceSweep.FaceRests` | agent/composition/src/disk_cleanup.rs:151-207 | After a failure-free run nothing is due any more, and the bytes reported are the bytes freed. |
| `IssueGraph.CollectHierarchy` | scripts/render-issue-progress.py:59-88 | The breadth-first loop ends on every graph, fetches each number once, holds exactly the nodes reachable from the root, and its parent links form a shortest-path spanning tree; it fails exactly if a reachable issue is missing. |
| `IssueGraph.FetchOne` | scripts/render-issue-progress.py:75-88 | One issue of a batch: stored as fetched with its parent, and its new children are queued once. |
| `IssueGraph.ParentsLeadToRoot` | scripts/render-issue-progress.py:60-88 | Following parent links from a node k edges away arrives at the root after k steps. |
| `IssueGraph.AddDependencies` | scripts/render-issue-progress.py:98-119 | The dependency pass sets the blockers of every hierarchy issue and adds every other mentioned number, as first mentioned, without parent or children; it fails exactly if a list is missing. |
| `IssueGraph.CollectIssues` | scripts/render-issue-progress.py:56-120 | Both passes together. |
| `IssueGraph.FetchedFields` | scripts/render-issue-progress.py:75-84 | After both passes every reachable issue carries its own number, the title, state, children and blockers fetched for it, and as parent a node one edge nearer that names it as a child; only the root has none. |
| `IssueGraph.MentionedFields` | scripts/render-issue-progress.py:101-111 | Every other issue carries number, title and state of the first dependency that mentions it, and has neither parent nor children nor blockers. |
| `IssueGraph.ReachableHierarchy` | scripts/render-issue-progress.py:179-188 | The depth-first loop ends on every dictionary and returns exactly the reachable nodes, or fails exactly if one of them is not in the dictionary. |
| `IssueGraph.DependenciesStayOutside` | scripts/render-issue-progress.py:98-119 | The dictionary with its added outside issues reaches from the root what the remote graph reaches. |
| `IssueGraph.Count` | scripts/render-issue-progress.py:154-156 | The two sums of the report: the closed issues and the blocked-by edges of the hierarchy. |
| `IssueGraph.ReportOn` | scripts/render-issue-progress.py:56-156 | From remote graph to report: counting never misses an issue, and total, closed and edges are those of the nodes reachable in the remote graph, never of an issue that was only a dependency. |
| `CyclicShift.ShiftedIndices` | eval/system-one/harness/cyclic_shift_experiment.py:43-45 | Place j of shift k is filled from (j + k) mod n. |
| `CyclicShift.AddRound` | eval/system-one/harness/cyclic_shift_experiment.py:53-59 | One call's scores are added at the indices its options came from. |
| `CyclicShift.AveragedProbs` | eval/system-one/harness/cyclic_shift_experiment.py:48-61 | Each result is the mean over the rounds of what the calls gave that answer; division by zero exactly for zero rounds with answers present. |
| `CyclicShift.RotationInvariant` | eval/system-one/harness/cyclic_shift_experiment.py:2-7 | Over a full set of shifts, for any scorer, rotating the answers rotates the averages. |
| `CyclicShift.AveragesRotate` | eval/system-one/harness/cyclic_shift_experiment.py:48-61 | The same for the whole vector. |
| `CyclicShift.TopAnswersRotate` | eval/system-one/harness/cyclic_shift_experiment.py:48-61 | So the set of top-scoring answers is unchanged. |
| `CyclicShift.AveragesSumToOne` | eval/system-one/harness/cyclic_shift_experiment.py:48-61 | If each of the calls made hands out a total of one, the averages of any number of rounds sum to one. |
| `CyclicShift.BiasCancels` | eval/system-one/harness/cyclic_shift_experiment.py:4-7 | An additive position bias cancels over a full set of shifts: each average is the answer's quality plus one constant. |
| `CyclicShift.FirstTop` | eval/system-one/harness/cyclic_shift_experiment.py:85-87 | The index of the greatest average, the first of equals. |
| `CyclicShift.OnlyTiesFlip` | eval/system-one/harness/cyclic_shift_experiment.py:82-92 | Under such a bias, reversing the answers flips the top answer exactly when the first and the last of the best answers are different texts. |
| `CyclicShift.InvariantExactlyWhen` | eval/system-one/harness/cyclic_shift_experiment.py:2-7 | For every list of answers and number of rounds: rotating the answers rotates the averages, for every scorer, if and only if there are as many rounds as answers. |
| `CyclicShift.BiasCancelsExactlyWhen` | eval/system-one/harness/cyclic_shift_experiment.py:4-7 | And every additive position bias adds the same to all answers if and only if there are as many rounds as answers. |
| `CyclicShift.FewerRoundsKeepTheBias` | eval/system-one/harness/cyclic_shift_experiment.py:52 | For every list and every smaller number of rounds: the scorer that takes the first option favours the first answer over one that no round put first, and turning the list turns that round. |
| `Json.LexConcat` | agent/features/tools/build.rs:197-207 | Texts that lex on their own lex side by side to the tokens of both, which is what lets pieces of text be spliced. |
| `Json.ReadMembers` | agent/features/tools/build.rs:166-173 | Members with commas between them, and an optional trailing comma, read back as the object in which a later key wins. |
| `SchemaGen.ArmOf` | agent/features/tools/build.rs:22-99 | Which names take each of the nine arms, and that a name no arm knows is looked up as it stands. |
| `SchemaGen.TypeTextAlone` | agent/features/tools/build.rs:16-116 | The text depends on the type and the tables only: any two ranks that show termination give the same text. |
| `SchemaGen.StructTextAlone` | agent/features/tools/build.rs:150-208 | The same for structs. |
| `SchemaGen.GenerateJsonSchema` | agent/features/tools/build.rs:150-208 | The loop over the fields produces the text the recursive description gives, or nothing where the generator panics. |
| `DocWords.DescriptionKeepsWords` | agent/features/tools/build.rs:119-141 | A field has a description exactly if its doc lines hold a word; the words of the description are those of all lines, in order, and it has no space at either end. |
| `SchemaTree.LiteralOfEscaped` | agent/features/tools/build.rs:144-148 | Reading undoes the escaping of any description, but for line breaks, which become spaces. |
| `SchemaTree.OneLineKeeps` | agent/features/tools/build.rs:147 | A description on one line is kept as it is. |
| `SchemaTree.NullableForms` | agent/features/tools/build.rs:46-60 | Splicing before the last brace adds `nullable` to the outermost object, for every text of the generator, the bare braces included. |
| `SchemaTree.DescribedReads` | agent/features/tools/build.rs:166-171 | Splicing at the first brace adds the description to the outermost object; in the bare braces it leaves a trailing comma that still reads. |
| `SchemaTree.SplicingIsStructural` | agent/features/tools/build.rs:16-116 | For every type over an acyclic struct table the text reads back as the schema tree built directly, and is missing exactly when the tree is. |
| `SchemaTree.StructSchemaReadsBack` | agent/features/tools/build.rs:150-208 | The same for a struct with descriptions, properties and required list. |
| `SchemaTree.RequiredExactly` | agent/features/tools/build.rs:164-179 | A field is required exactly if it has a name, its outermost type is not `Option`, and serde has no default for it. |
| `SchemaTree.RequiredByName` | agent/features/tools/build.rs:173-179 | By the name of its type: a field of a path type is required exactly if the last segment is not `Option` and serde has no default for it. |
| `SchemaTree.ReadsInside` | agent/features/tools/build.rs:46-98 | What the text for a `Vec`, an `Option`, a `Box` or a reference reads as, in terms of what the text for the type inside reads as. |
| `SchemaTree.NamesRead` | agent/features/tools/build.rs:84-106 | The text for an enum reads as the list of its variants, for a name in no table as an object. |
| `Validator.ValidateToolInput` | agent/features/tools/src/domain/schema_validator.rs:79-179 | The validator with its loops over required names and input keys: nothing is checked without properties, an input that is no object misses every required field, and otherwise it accepts exactly the conforming inputs and else collects all faults in order. |
| `Validator.ReportSays` | agent/features/tools/src/domain/schema_validator.rs:130-176 | The report tells of each key what is wrong with it: missing, unexpected, or of a wrong type or outside its enum, the last two never both. |
| `Validator.TypeNames` | agent/features/tools/src/domain/schema_validator.rs:248-278 | The type name reported for a value is the one by which a field takes it; only a whole number passes for another as well, `number`. |
| `Validator.AdditionalTrue` | agent/features/tools/src/domain/schema_validator.rs:90-95 | `additionalProperties: true` lets unknown keys pass and changes nothing else. |
| `Validator.NullableTakesNull` | agent/features/tools/src/domain/schema_validator.rs:149-163 | A nullable field takes null exactly if it has no enum. |
| `Validator.StripRuntimeMeta` | agent/features/tools/src/domain/schema_validator.rs:24-32 | The loop over the meta keys removes `phase` and nothing else, and leaves other inputs alone. |
| `Validator.PhaseIsIgnored` | agent/features/tools/src/domain/schema_validator.rs:24-32 | A `phase` in the input never matters, so a schema that requires a field of that name accepts nothing. |
| `ToolInput.TreeTakes` | agent/features/tools/build.rs:16-116 | A field with the schema of a type passes the validator exactly if the type takes the value. |
| `ToolInput.AcceptsExactly` | agent/features/tools/src/domain/schema_validator.rs:79-179 | For every struct over acyclic tables: the text generated for it, read and used by the validator, accepts exactly the objects that have every field without `Option` and default, and of which every key is a field whose type takes its value. |
| `ToolInput.CheckCall` | agent/features/tools/src/domain/schema_validator.rs:24-179 | Generating, reading, stripping and validating in turn accept exactly those inputs. |
| `ToolInput.NullForOption` | agent/features/tools/src/domain/schema_validator.rs:15 | Null for an `Option<T>` is accepted exactly if T is no enum, be it behind further options, boxes or references. |
| `ToolInput.NullableRefusesNull` | agent/features/tools/src/domain/schema_validator.rs:15 | For every enum T, a struct with one field of type `Option<T>` has a schema that calls it nullable, refuses null for it and lets it be left out. |
| `TokenBudget.EstimateTokensWithCharRates` | agent/shared/src/token_budget.rs:19-38 | The counting loop gives the clamped weight of the text, rounded up once. |
| `TokenBudget.DefaultEstimate` | agent/shared/src/token_budget.rs:1-13 | At the default rates the estimate is six tenths of the number of CJK characters and three tenths of that of the others, rounded up once. |
| `TokenBudget.ClampedRates` | agent/shared/src/token_budget.rs:34-37 | Rates out of range count as the nearest one in it; within it the estimate is the least number not below the cost. |
| `TokenBudget.OtherScripts` | agent/shared/src/token_budget.rs:81-95 | Exactly the characters in these gaps are charged at the lower rate. |
| `TokenBudget.SplittingRoundsAtMostOnce` | agent/shared/src/token_budget.rs:11 | est(a) + est(b) - 1 <= est(ab) <= est(a) + est(b), for all rates. |
| `TokenBudget.InsertionCostsMore` | agent/shared/src/token_budget.rs:19-38 | Inserting text anywhere never lowers the estimate, for all rates. |
| `TokenBudget.CostBounds` | agent/shared/src/token_budget.rs:35-37 | Exactly the empty text costs nothing, and no text more than two per character, for all rates. |
| `TokenBudget.TruncateToTokenBudget` | agent/shared/src/token_budget.rs:52-78 | Within budget the text is kept; otherwise, if the marker fits, the result fits, keeps a proper prefix, and exactly the prefixes up to that one fit; else it is the marker alone. |
| `StringIdx.Utf8Carries` | agent/shared/src/string_idx.rs:40-63 | The bytes of a character are its UTF-8 form (section 3 of RFC 3629): the length by the size of the code point, whose bits lead and continuation bytes carry. |
| `StringIdx.BytesDetermine` | agent/shared/src/string_idx.rs:40-63 | No two strings have the same bytes. |
| `StringIdx.ByteAdjunction` | agent/shared/src/string_idx.rs:40-63 | byte_to_char(b) <= k if and only if b <= char_to_byte(k), for every string. |
| `StringIdx.CharByteChar` | agent/shared/src/string_idx.rs:40-63 | From a character to its byte and back is the identity up to the end. |
| `StringIdx.ByteCharByte` | agent/shared/src/string_idx.rs:40-63 | From a byte to its character and back is the identity exactly on character boundaries, and never smaller. |
| `StringIdx.BoundariesAreOffsets` | agent/shared/src/string_idx.rs:43-48 | A byte is no continuation byte exactly where a character starts or the string ends. |
| `StringIdx.CSliceIsCharacterSlice` | agent/shared/src/string_idx.rs:123-127 | Slicing by character gives the bytes of the character slice, never cuts a character, and panics exactly when the start lies behind the end. |
| `StringIdx.ColToChar` | agent/shared/src/string_idx.rs:66-77 | The loop finds how many characters fit into the columns. |
| `StringIdx.CharToCol` | agent/shared/src/string_idx.rs:80-90 | The loop adds up the widths of the characters before the position. |
| `StringIdx.ColumnAdjunction` | agent/shared/src/string_idx.rs:65-90 | char_to_col(k) <= c if and only if k <= col_to_char(c), for every string and any widths, zero included. |
| `StringIdx.CharColumnChar` | agent/shared/src/string_idx.rs:65-90 | From a character to its column and back is the identity exactly at the end or before a character with a width. |
| `Tokenizer.Tokenize` | eval/system-one/harness/lexical_baseline.py:42-71 | The loop with its two buffers, over the text in lower case, gives the tokens of the longest runs, one after the other. |
| `Tokenizer.RunsInTurn` | eval/system-one/harness/lexical_baseline.py:5 | What those are: a run that ends where its kind does gives its own terms (pairs of Han characters, or the word) before the tokens of the rest. |
| `Tokenizer.RunIs` | eval/system-one/harness/lexical_baseline.py:46-57 | A run of letters is one term; term i of a run of Han characters is character i with the next, and a single one is its own term. |
| `Tokenizer.SeparatorSplits` | eval/system-one/harness/lexical_baseline.py:59-71 | tokenize(a + separator + b) is tokenize(a) followed by tokenize(b). |
| `Tokenizer.NoTermMixes` | eval/system-one/harness/lexical_baseline.py:59-68 | Every term is all Han characters or all other letters and digits, since Han is tested before `isalnum`. |
| `Tokenizer.NothingIsLost` | eval/system-one/harness/lexical_baseline.py:42-71 | The terms keep every Han character and every letter or digit of the lower-cased text, and hold no other character. |
| `Tokenizer.HanGaps` | eval/system-one/harness/lexical_baseline.py:34-39 | Where there are no Han characters. |
| `Lexical.BuildDoc` | eval/system-one/harness/lexical_baseline.py:100-114 | The loops over content, tags and facet build the weighted document. |
| `Lexical.DocWeight` | eval/system-one/harness/lexical_baseline.py:103-110 | A term weighs three per occurrence in the content, two in tags and one in the facet. |
| `Lexical.DocHas` | eval/system-one/harness/lexical_baseline.py:103-114 | The terms of a document are exactly those it mentions, with positive weights. |
| `Lexical.DocsAreSound` | eval/system-one/harness/lexical_baseline.py:116-130 | The mean length is positive as soon as any document has a term, so no score divides by zero. |
| `Lexical.ScoreOf` | eval/system-one/harness/lexical_baseline.py:122-130 | The loop over the query terms gives the BM25 sum; what that rewards, `LexicalLaws` says. |
| `Lexical.ScorePositive` | eval/system-one/harness/lexical_baseline.py:122-134 | The score is positive exactly for documents that share a term with the query, and zero for all others. |
| `Lexical.ExactMatchShares` | eval/system-one/harness/lexical_baseline.py:131-132 | An exact match always shares a term, so the boost never makes a candidate. |
| `Lexical.CandidatesShare` | eval/system-one/harness/lexical_baseline.py:120-134 | The candidates are exactly the entries that share a term with the query. |
| `Lexical.Sort` | eval/system-one/harness/lexical_baseline.py:136-140 | The sort by score, tie-break and id, stable. |
| `Lexical.Rank` | eval/system-one/harness/lexical_baseline.py:93-141 | The result is the slice by `limit` of all candidates, each once, in key order; `LexicalLaws` says what that order rewards. |
| `LexicalLaws.TermScoreOrder` | eval/system-one/harness/lexical_baseline.py:130 | For a positive idf a term's contribution strictly grows with its weight in the document, strictly falls with the length norm, and stays below idf * (k1 + 1). |
| `LexicalLaws.TermScoreOfIdf` | eval/system-one/harness/lexical_baseline.py:130 | It strictly grows with the idf, and is the idf itself where weight and length norm are equal. |
| `LexicalLaws.LengthNormIs` | eval/system-one/harness/lexical_baseline.py:129 | The length norm strictly grows with the length, from a quarter for nothing, through one at the mean length. |
| `LexicalLaws.IdfIs` | eval/system-one/harness/lexical_baseline.py:128 | The idf is the logarithm of (N + 1) / (df + 0.5). |
| `LexicalLaws.IdfFalls` | eval/system-one/harness/lexical_baseline.py:128 | For an increasing logarithm a term in more documents has the smaller idf. |
| `LexicalLaws.FrequencyCounts` | eval/system-one/harness/lexical_baseline.py:127 | The document frequency is the number of documents that hold the term. |
| `LexicalLaws.LengthsAddUp` | eval/system-one/harness/lexical_baseline.py:117 | The mean length times the number of documents is the sum of the lengths. |
| `LexicalLaws.ScoreAddsUp` | eval/system-one/harness/lexical_baseline.py:122-130 | A score adds up over the terms of the query, each as often as the query says it. |
| `LexicalLaws.StandsBefore` | eval/system-one/harness/lexical_baseline.py:136-140 | Of two places in the ranking the earlier has the higher score, or the higher tie-break at equal scores, or then the smaller id, or then the smaller index. |
| `LexicalLaws.MoreStandsFirst` | eval/system-one/harness/lexical_baseline.py:93-141 | For a query of one term, of two candidates of one length that are both an exact match or both none, the one with more weight on the term stands first. |
| `LexicalLaws.MoreOccurrencesStandFirst` | eval/system-one/harness/lexical_baseline.py:93-141 | So of two candidates with the same tags, facet and number of terms, the one that says the query's term more often stands first. |
| `LexicalLaws.ExactMatchStandsFirst` | eval/system-one/harness/lexical_baseline.py:131-132 | An exact match stands before every other candidate whose terms score at most a hundred. |
| `LexicalLaws.StripIs` | eval/system-one/harness/lexical_baseline.py:118 | Stripping takes blanks off both ends until neither end is blank. |
| `LexicalLaws.SlicedIs` | eval/system-one/harness/lexical_baseline.py:141 | A limit takes that many from the front; a negative one leaves that many off the end. |
| `LexicalLaws.TieBreakOrder` | eval/system-one/harness/lexical_baseline.py:87-90 | A pinned entry wins every tie over one that is not; otherwise, with equal recency, more confirmations win, up to twenty. |
| `LexicalLaws.TieBreakSteps` | eval/system-one/harness/lexical_baseline.py:87-90 | What a pin, one more confirmation and a later one add to the tie-break score. |
| `LexicalLaws.RecencySteps` | eval/system-one/harness/lexical_baseline.py:74-84 | A later confirmation never counts less; the steps come after 1, 8, 31 and 91 days. |
| `Score.OneBucket` | eval/system-one/harness/score.py:50-52 | Every probability from 0 to 1 lies in exactly one bucket. |
| `Score.AllCounted` | eval/system-one/harness/score.py:50-52 | So every sample is counted in exactly one bucket. |
| `Score.Ece` | eval/system-one/harness/score.py:44-58 | The loop adds up each bucket's share times the gap between accuracy and confidence; what that charges, `CalibrationLaws` says. |
| `Score.EceWithinOne` | eval/system-one/harness/score.py:44-58 | The calibration error lies between 0 and 1. |
| `CalibrationLaws.GapTimes` | eval/system-one/harness/score.py:54-57 | Times the number of samples, what a bucket adds is the distance between its sum of probabilities and its number of true outcomes, whichever is greater. |
| `CalibrationLaws.NoErrorExactlyWhen` | eval/system-one/harness/score.py:44-58 | The error is never negative, and zero if and only if in every bucket the probabilities add up to the number of true outcomes. |
| `CalibrationLaws.ErrorOfOneProbability` | eval/system-one/harness/score.py:44-58 | For samples of one probability, whatever the number of buckets, the error is how far the share of true outcomes lies above it, or below it. |
| `CalibrationLaws.OutcomesCount` | eval/system-one/harness/score.py:55 | The sum of the outcomes is the number of samples that came true. |
| `CalibrationLaws.BoundsBelong` | eval/system-one/harness/score.py:50-52 | A bucket holds its lower end and not its upper one; the last one holds 1 as well. |
| `Score.F1Between` | eval/system-one/harness/score.py:146-148 | F1 lies between precision and recall. |
| `Score.F1OfCounts` | eval/system-one/harness/score.py:141-148 | F1 is 2tp / (2tp + fp + fn), with the source's conventions for zero. |
| `Score.RankMetrics` | eval/system-one/harness/score.py:90-106 | R@1 by the recorded top answer and MRR by the stable descending sort of the probabilities, nothing for no case. |
| `Score.RankedBehind` | eval/system-one/harness/score.py:97-99 | In the sorted list an answer stands behind exactly the more probable ones and the equally probable ones named before it. |
| `Score.ShareIsRank` | eval/system-one/harness/score.py:96-103 | So a record adds one over one more than the number of answers that outrank the gold one. |
| `Score.RecallBelowMrr` | eval/system-one/harness/score.py:90-106 | 0 <= R@1 <= MRR <= 1 on records whose top answer is the first ranked one, as run_eval.py:274-279 writes them. |
| `Score.RecallBelowMrrExactlyWhen` | eval/system-one/harness/score.py:90-106 | On any records: R@1 <= MRR for every selection of them if and only if each hit is ranked first. |
| `Score.Percentile` | eval/system-one/harness/score.py:36-41 | The nearest-rank percentile is a sample with at least pct per cent of the samples at or below it, and the least such; out of range it is the least or the greatest sample. |

## Left out

- Snowflake.IdsIncrease: subtraction of the epoch wraps, as in a release build; a debug build panics before the epoch. Memory ordering is sequentially consistent, and that the loop makes progress is not stated.
- FileTree.Disk.CopyTree: symbolic links, permissions and time stamps are not part of the tree; a file is copied in one step.
- StateMigration.MigrateStateLayout: the report's lists of skipped entries, warnings and skipped-file count, the message texts, and the payload of the marker are not modelled; directories count as non-empty for `len()`.
- StateMigration.RollbackStateLayout: removal of the state directory is one step, so a removal that fails half-way is not covered, nor is a backup path above the state directory, which would be copied into itself.
- MigrationRetry.RetryCanDiffer: a failure is given by the entries it leaves; which operation failed is not named.
- DiskCleanup.Sweeper.SweepSessions: `scanned` and the error texts are not modelled; an orphan's label also names its root; a session id `..` (a dataset named `...dataset`), whose tool-results path is the parent directory, is not covered.
- FaceSweep.Face.SweepFace: the error texts and unreadable roots are not modelled; roots lie apart from each other, and every name is readable.
- Aging.IsExpired: `days * 86400` beyond 64 bits and unreadable metadata are not modelled.
- Advisories, configuration of the faces and `run_disk_cleanup` (disk_cleanup.rs:436 onwards): wiring over the modelled parts.
- IssueGraph.CollectIssues: the thread pool's ordered map is sequential; titles and lower-cased states are values; retries and paging of the API are inside one fetch.
- `render_tree` (render-issue-progress.py:127-149): display only, and it does not end on a cyclic graph.
- CyclicShift.AveragedProbs: latencies are left out; a probability's key is its position as a number.
- SchemaGen.GenerateJsonSchema: parsing of Rust, the derivation of enum variant names, and struct tables that are cyclic, on which the generator does not end; `trim` knows four kinds of white space.
- Json.LexConcat: the reader knows the literals the generator writes (strings, `true`), the escapes it writes, and no numbers.
- Validator.ValidateToolInput: the tool's name, the message text and the order of the expected names are left out; the keys of the input may be visited in any order, and a schema is one the JSON reader can read. Like the source, it checks only outermost types.
- StringIdx.CSliceIsCharacterSlice: `bslice_to` and `bslice_from` are cases of the byte slice.
- Lexical.Rank: lower-casing is any function that leaves white space where it is, and white space is any set of characters that are neither Han nor alphanumeric.
- Score.F1Between: accuracy, Brier score, flip rates and the filtering of records are left out as easy.
- Everything else: the crates for the terminal interface, providers, tools and runtime, the session lock, DTOs, and command lines.

# maestro migration engine — a Dafny model

maestro applies versioned SQL migrations to PostgreSQL or CockroachDB and records each one
in a `schema_history` ledger: one row per version, holding the description, the MD5
checksum, whether the script succeeded, when it ran and when it was last repaired. This
project models the engine's core and proves what it promises:

- **The ledger repositories** (`postgres.dfy`, `cockroach.dfy`, over `ledger.dfy` and
  `database.dfy`). The database is abstract state. It records whether `schema_history`
  exists, the ledger as a map from version to row, and the two lock markers (the
  PostgreSQL advisory lock and the CockroachDB `schema_lock` table). Each repository is a
  class holding the database and the swappable `queriable` handle: the database itself, or
  an open transaction with the tables it sees. Every method takes a `Failures` oracle that
  says which of its statements fail, so every error path of the Go code is a case of the
  contract.
- **The orchestrator** (`migrator.dfy`). `Migrate` runs over a repository whose answers
  are oracles of the steps issued so far. What it does is recorded as a trace of steps
  (hook, execute, roll back) and a list of errors. The loops of `migrateUp`,
  `migrateDown`, `executeHooks` and `executeVersionedHooks` are proved equal to one rule,
  `Run`: steps are issued in order, and without `Force` the first error stops the run.
  The rule is applied to plans built from the configuration and the loaded files.
- **The helpers.**
  - The local contiguity check (`migrations.dfy`).
  - `{{name, args}}` template expansion, with a hand-written scanner for the placeholder
    expression (`templates.dfy`, over the string functions in `text.dfy`).
  - File-name classification against the migration and hook patterns (`patterns.dfy`,
    `loader.dfy`).
  - Filtering and in-place sorting of the loaded files (`loader.dfy`).
  - The highest UP version found among file names (`latest_version.dfy`).

Go's `uint8`/`uint16` are subset types. `uint16(v + 1)` wraps explicitly (`Succ16`).

## Model

| member | source | states |
|---|---|---|
| Types.Succ16 | core/migrator/migrator.go:139 | `latestMigration+1` as a `uint16`: the successor, and 0 after 65535 |
| Migrations.ContiguityErrors | internal/migrations/migration.go:17-32 | at most one error per migration; none for an empty list |
| Migrations.ValidateMigrations | internal/migrations/migration.go:17-32 | the loop returns exactly the contiguity errors starting from version 1 |
| Migrations.NoErrorsIffRun | internal/migrations/migration.go:20-26 | no error exactly when each version is the expected one, counting on from the first expectation |
| Migrations.ValidIffOneToN | internal/migrations/migration.go:20-31 | the result is nil exactly when the versions are 1, 2, ..., n in order |
| Migrations.ErrorsSplit | internal/migrations/migration.go:21-25 | the errors of a concatenation are the prefix's errors, then the suffix's errors checked from the prefix's last version + 1 (resynchronisation) |
| Migrations.SingleGap | internal/migrations/migration.go:21-24 | one gap in otherwise consecutive versions gives exactly one "expected x got y" error |
| Migrations.RepeatedVersion | internal/migrations/migration.go:25 | [1, 1] gives the single error "expected 2 got 1" |
| Text.TrimSpace | internal/migrations/templates.go:23-27 | the result is the slice of the input between leading and trailing white space, with no white space at either end |
| Text.Split | internal/migrations/templates.go:25 | splitting yields at least one piece |
| Text.SplitLeftmost | internal/migrations/templates.go:25 | the split is leftmost and non-overlapping: each piece but the last ends at the first occurrence of the separator, and the last piece holds none |
| Text.JoinSplit | internal/migrations/templates.go:25 | joining the pieces of a split with the same separator gives the text back |
| Text.ReplaceIsSplitJoin | internal/migrations/templates.go:36-39 | replacing every occurrence is splitting on the target and joining with the replacement |
| Text.ReplaceAbsent | internal/migrations/templates.go:39 | a text in which the target does not occur is unchanged by replacement |
| Text.Itoa | internal/migrations/templates.go:36 | `%d` prints a non-empty digit string without a leading zero |
| Text.DigitsItoa | internal/migrations/templates.go:36 | reading back the printed number gives the number |
| Templates.CloseAt | internal/migrations/templates.go:9 | the first `}` at or after k, with no `}` before it |
| Templates.ScanWellFormed | internal/migrations/templates.go:9-19 | every match found is `{{`, then a non-empty run without `}`, then `}}`, and its group is that run |
| Templates.ScanEmptyIff | internal/migrations/templates.go:19 | the scan skips nothing: no match is reported exactly when the expression matches at no position |
| Templates.ScanFindsLeftmost | internal/migrations/templates.go:19 | the first match reported is the one at the leftmost position where the expression matches |
| Templates.NoOpeningNoMatch | internal/migrations/templates.go:19-21 | text without `{{` has no placeholder |
| Templates.Fields | internal/migrations/templates.go:23-27 | the name is the trimmed first comma-separated field; one argument per further field |
| Templates.Dollar | internal/migrations/templates.go:36 | the marker of argument i is `$` followed by i in decimal |
| Templates.SubstituteNoMarker | internal/migrations/templates.go:35-37 | a template without `$` is unchanged by argument substitution |
| Templates.FirstNamed | internal/migrations/templates.go:29-33 | finds the first template with the name, and nothing exactly when none has it |
| Templates.ExpandOne | internal/migrations/templates.go:23-41 | one placeholder, whose text is never empty, handled; the number of templates is kept |
| Templates.ExpandAll | internal/migrations/templates.go:21-43 | the placeholders handled in order; the number of templates is kept |
| Templates.Expand | internal/migrations/templates.go:16-44 | the placeholder list is taken once from the original content, then expanded in order |
| Templates.NoPlaceholderUnchanged | internal/migrations/templates.go:19-21 | content with no placeholder leaves the content and every template unchanged |
| Templates.UnknownNameKept | internal/migrations/templates.go:29-33 | a placeholder naming no template changes nothing |
| Templates.OnlyFirstTemplateChanges | internal/migrations/templates.go:29-41 | only the first template of the name is used and rewritten; every other template keeps its content |
| Templates.PlainPlaceholder | internal/migrations/templates.go:39 | a placeholder without arguments is replaced at every occurrence by the template's content |
| Templates.TemplateChangedEvenIfAbsent | internal/migrations/templates.go:34-37 | the template's content is rewritten through the alias even when the placeholder no longer occurs in the content |
| Templates.Template.constructor | internal/migrations/templates.go:11-14 | a template with the given name and content |
| Templates.FindTemplate | internal/migrations/templates.go:29-33 | the inner search stops at the first template of the name, or runs off the end exactly when there is none |
| Templates.SubstituteInto | internal/migrations/templates.go:34-37 | the template's own content becomes the text with `$1`..`$k` substituted in turn |
| Templates.ExpandStep | internal/migrations/templates.go:21-42 | one outer iteration leaves the content and the templates' contents as `ExpandOne` says |
| Templates.ParseTemplates | internal/migrations/templates.go:16-44 | the new content and the rewritten templates are exactly `Expand` of the original ones |
| Patterns.PatternOf | internal/conf/conf.go:19-31 | each kind of file has a non-empty letter prefix and at least one number |
| Patterns.DigitEnd | internal/conf/conf.go:19 | a `\d+` run read greedily: all digits, and stopped at a non-digit or the end |
| Patterns.ReadGroups | internal/conf/conf.go:27 | reading n `(\d+)_` groups yields n digit strings |
| Patterns.ReadGroupsSound | internal/conf/conf.go:27 | the groups read are non-empty digit strings, and the text read is those groups in order |
| Patterns.ReadGroupsComplete | internal/conf/conf.go:27 | non-empty digit groups written out at any position, whatever follows them, are read back exactly, ending right after the last `_` |
| Patterns.MatchSound | internal/conf/conf.go:19-31 | a match satisfies the expression and renders back to the very name |
| Patterns.MatchComplete | internal/conf/conf.go:19-31 | every name the expression describes is matched, with its groups |
| Patterns.DistinctPrefixesDisjoint | internal/conf/conf.go:19-31 | patterns with different letter prefixes never match one name |
| Patterns.DownNotUp | internal/conf/conf.go:19-20 | a `.down.sql` name leaves a dot where `[^.]+` would need the description |
| Patterns.SuffixesDisjoint | internal/conf/conf.go:19-23 | `.sql` and `.down.sql` with one prefix never match one name |
| Patterns.SharedPrefix | internal/conf/conf.go:19-31 | kinds sharing a prefix differ only in suffix |
| Patterns.PatternsDisjoint | internal/conf/conf.go:19-31 | no file name matches two patterns |
| Loader.ParseUint | internal/filesystem/load.go:204-207 | `ParseUint(digits, 10, bits)` succeeds exactly below the limit, with the digits' value; otherwise an out-of-range error |
| Loader.MigrationFromMatch | internal/filesystem/load.go:199-218 | an error exactly when the version does not fit in 16 bits; otherwise the migration with that version and description |
| Loader.CheckAndLoadMigrationInfo | internal/filesystem/load.go:193-223 | nothing for a name matching neither migration pattern; an error exactly for an oversized version; otherwise the UP or DOWN migration the name describes |
| Loader.FirstHookMatch | internal/filesystem/load.go:242-247 | the first hook kind whose pattern matches, or none exactly when none does |
| Loader.HookMatchUnique | internal/filesystem/load.go:241-278 | a matching hook kind is the only one |
| Loader.HookFromMatch | internal/filesystem/load.go:247-273 | an error when the order exceeds 8 bits or a version exceeds 16 bits; the version is set only for BeforeVersion/AfterVersion |
| Loader.HookInfoCases | internal/filesystem/load.go:241-278 | the outcome for a name matching no hook pattern, and for one matching a given kind |
| Loader.CheckAndLoadHookInfo | internal/filesystem/load.go:241-278 | nothing exactly when no hook pattern matches |
| Loader.HookInfoFields | internal/filesystem/load.go:247-273 | a hook read from a name has the kind whose pattern matched, the order and, for BeforeVersion/AfterVersion, the version written in the name, and no content |
| Loader.HookInfoErrors | internal/filesystem/load.go:251-267 | classifying fails exactly when some hook pattern matches with a number too large |
| Loader.IsToAddMigration | internal/filesystem/load.go:225-228 | UP always; DOWN exactly in down mode |
| Loader.IsToAddHook | internal/filesystem/load.go:280-303 | in down mode only RepeatableDown with `UseRepeatable`; in up mode each kind by its own flag, never RepeatableDown |
| Loader.WithContent | internal/filesystem/load.go:72-77 | the content is attached; only an UP migration gets a checksum, computed over that content |
| Loader.Classify | internal/filesystem/load.go:58-90 | an error exactly when the migration check fails, or the name is no migration and the hook check fails; a migration entry exactly for a migration name `isToAddMigration` accepts, a hook entry exactly for a non-migration hook name `isToAddHook` accepts, each as read from the name; every other name skipped |
| Loader.WithLoaded | internal/filesystem/load.go:72-99 | a kept migration gets the content and, going up, its checksum; a kept hook gets the content and keeps its other fields |
| Loader.LoadEntry | internal/filesystem/load.go:58-104 | one directory entry: the classification error returned; a skipped name returns nothing to add; a wanted file that cannot be read is a read error; a wanted readable file yields the classified entry with the template-expanded content (and checksum), and the templates are left as the expansion rewrites them; templates untouched when nothing is kept |
| Loader.SortByKey | internal/filesystem/load.go:324-341 | the array ends ordered by the key and is a permutation of what it held |
| Loader.SortMigrations | internal/filesystem/load.go:324-333 | UP ascending and DOWN descending by version, each a permutation of the loaded group |
| Loader.SortHooks | internal/filesystem/load.go:335-341 | hooks ascending by order, a permutation of the group |
| LatestVersion.UpVersion | internal/filesystem/migration.go:22-24 | only a name matching the UP pattern has a version |
| LatestVersion.NameProblem | internal/filesystem/migration.go:27-30 | a name is a problem exactly when its UP version does not fit in 16 bits |
| LatestVersion.FirstBadName | internal/filesystem/migration.go:21-37 | no problem exactly when every name is fine |
| LatestVersion.FirstProblem | internal/filesystem/migration.go:15-39 | no problem exactly when every directory is readable and holds no bad name |
| LatestVersion.ScanEntries | internal/filesystem/migration.go:21-38 | the inner loop fails with the first bad name; otherwise it returns a bound on all UP versions, one that is either the starting value or a listed version |
| LatestVersion.GetLatestVersionFromFiles | internal/filesystem/migration.go:11-42 | the first problem is the error; otherwise the result is at least every UP version, a listed version when nonzero, and 0 when none is listed |
| Ledger.CreateIfAbsent | core/database/postgres/postgres.go:56-83 | afterwards the table exists; an existing table is untouched, a new one is empty |
| Ledger.CreateIdempotent | core/database/repository.go:36-39 | creating the table twice is creating it once |
| Ledger.MaxBelow | core/database/postgres/postgres.go:42-46 | the largest element below a bound, or 0 when there is none |
| Ledger.Versions | core/database/postgres/postgres.go:128-130 | every ledger version, failed rows included, strictly ascending |
| Ledger.LatestSuccess | core/database/postgres/postgres.go:42-53 | `COALESCE(MAX(version), 0)` over successful rows: at least every successful version, and either 0 or one of them |
| Ledger.LatestSuccessExample | core/database/postgres/postgres_test.go:110-135 | ledger {1 ok, 5 ok, 7 failed} gives 5 |
| Ledger.GapErrors | core/database/postgres/postgres.go:140-153 | at most one error per row, all of them "missing version" |
| Ledger.GapFreeIff | core/database/postgres/postgres.go:140-153 | for ascending versions, no gap error exactly when they are consecutive from the expectation |
| Ledger.NoGapsIffOneToN | core/database/postgres/postgres.go:127-153 | the ledger has no gap error exactly when its versions are 1..n |
| Ledger.GapReportsFirstMissing | core/database/postgres/postgres.go:148-152 | versions [2, 5] report 1 and 3: one error per gap, naming its first missing version |
| Ledger.DriftOver | core/database/postgres/postgres.go:174-183 | at most one error per returned row |
| Ledger.DriftOverSound | core/database/postgres/postgres.go:174-183 | no error exactly when every successful row is a local triple; every error names a successful, unknown row with its description and checksum |
| Ledger.DriftErrors | core/database/postgres/postgres.go:155-183 | at most one error per ledger row |
| Ledger.NoDriftIff | core/database/repository.go:46-50 | no drift error exactly when every successful row's (version, description, checksum) is local |
| Ledger.ValidationExampleGap | core/database/cockroachdb/cockroach_test.go:153-163 | local {1, 2} against ledger {2}: exactly one error |
| Ledger.ValidationExampleClean | core/database/cockroachdb/cockroach_test.go:165-170 | after recording 1 as well, no error |
| Ledger.ValidationExampleDrift | core/database/cockroachdb/cockroach_test.go:172-180 | changing row 2's checksum gives exactly one error |
| Ledger.FailingOver | core/database/postgres/postgres.go:416-425 | every migration built is a failing row, an UP migration with that row's description and checksum and no content; every failing row is built |
| Ledger.FailingOverAscending | core/database/postgres/postgres.go:416-425 | over ascending versions the migrations built come out ascending, so none repeats |
| Ledger.FailingRows | core/database/postgres/postgres.go:404-431 | exactly the rows with `success = false`, each as an UP migration carrying its row's description and checksum, in ascending version order without repetition |
| Ledger.Upsert | core/database/postgres/postgres.go:203-211 | one row for the version with the given description, checksum and success, run now; `repaired_at` kept; every other row unchanged |
| Ledger.UpsertNoDuplicate | core/database/repository.go:52-56 | recording the same version twice leaves one row, not two: the versions are the old ones plus that one, and the row holds the second execution |
| Ledger.RepairedRow | core/database/cockroachdb/cockroach.go:389-398 | local description and checksum; a new row succeeds and is stamped; an existing row keeps success and execution time, and is stamped only if something changed |
| Ledger.GapCheck | core/database/postgres/postgres.go:138-153 | the gap loop returns exactly the gap errors of the ascending versions from 1 |
| Ledger.DriftCheck | core/database/postgres/postgres.go:174-183 | the drift loop returns exactly the drift errors over the returned rows |
| Postgres.RepairStep | core/database/postgres/postgres.go:343-385 | at most one error; without one, the row matches the local migration; success and execution time of existing rows kept; only its version touched |
| Postgres.RepairKeepsSuccess | core/database/postgres/postgres.go:343-386 | repair never changes an existing row's success or execution time, and reports at most one error per migration |
| Postgres.RepairMatchesLocal | core/database/repository.go:69-72 | when nothing fails, repair reports nothing and every local migration's row carries its description and checksum |
| Postgres.PostgresRepository.constructor | core/database/postgres/postgres.go:24-30 | statements go straight to the database |
| Postgres.PostgresRepository.CheckSchemaHistoryTable | core/database/postgres/postgres.go:85-100 | the query error, or whether the table exists |
| Postgres.PostgresRepository.GetLatestMigration | core/database/postgres/postgres.go:32-54 | 0 without a table; otherwise the highest successful version (0 if none); each query error returned |
| Postgres.PostgresRepository.AssertSchemaHistoryTable | core/database/postgres/postgres.go:56-83 | writes nothing when the table exists; creates it only when absent; without an error the table then exists |
| Postgres.PostgresRepository.ValidateMigrations | core/database/postgres/postgres.go:102-189 | nil for an empty list or no table; one error for a non-UP entry; otherwise the gap errors followed by the drift errors, or the failing query's error |
| Postgres.PostgresRepository.ExecuteMigration | core/database/postgres/postgres.go:191-222 | non-UP refused unchanged; otherwise the script's error then the write's error, and the row upserted with success = script succeeded |
| Postgres.PostgresRepository.ExecuteHook | core/database/postgres/postgres.go:224-231 | an error exactly when the script fails |
| Postgres.PostgresRepository.RollbackMigration | core/database/postgres/postgres.go:233-287 | non-DOWN refused; absent version skipped; otherwise the row is deleted even if the script failed; no error means the version is gone |
| Postgres.PostgresRepository.DoInTransaction | core/database/postgres/postgres.go:289-309 | no callback when BEGIN fails; its writes are committed only when it returns nil; the handle is reset to the database on every exit |
| Postgres.PostgresRepository.DoInLock | core/database/postgres/postgres.go:311-329 | no callback when the lock fails; the callback runs while the lock is held; a failed unlock panics, otherwise the lock is released |
| Postgres.PostgresRepository.Repair | core/database/postgres/postgres.go:331-392 | nothing without a table; otherwise the loop leaves exactly `RepairAll`'s ledger and errors |
| Postgres.PostgresRepository.GetFailingMigrations | core/database/postgres/postgres.go:394-432 | the table check's error, nothing without a table, the query's error, or exactly `FailingRows` of the ledger |
| Cockroach.PollSkip | core/database/cockroachdb/cockroach.go:336-358 | probes that found the marker table do not decide the outcome |
| Cockroach.PollTimeout | core/database/cockroachdb/cockroach.go:335-362 | `lock` times out exactly when all twelve probes succeed and find the table |
| Cockroach.PollAcquired | core/database/cockroachdb/cockroach.go:336-355 | `lock` succeeds exactly when one of the twelve attempts finds the table absent and creates it |
| Cockroach.PollProbeError | core/database/cockroachdb/cockroach.go:338-341 | a failed probe ends `lock` at once with that error |
| Cockroach.RepairStep | core/database/cockroachdb/cockroach.go:389-404 | one upsert: at most one error; existing rows keep success and execution time |
| Cockroach.RepairSameAsPostgres | core/database/cockroachdb/cockroach.go:388-405 | unless a PostgreSQL row read fails, both backends' repairs leave the same ledger |
| Cockroach.RepairKeepsSuccess | core/database/cockroachdb/cockroach.go:388-405 | repair never changes a row's success or execution time, and reports at most one error per migration |
| Cockroach.CockroachRepository.constructor | core/database/cockroachdb/cockroach.go:24-30 | statements go straight to the database |
| Cockroach.CockroachRepository.CheckSchemaHistoryTable | core/database/cockroachdb/cockroach.go:85-100 | the query error, or whether the table exists |
| Cockroach.CockroachRepository.GetLatestMigration | core/database/cockroachdb/cockroach.go:32-54 | 0 without a table; otherwise the highest successful version |
| Cockroach.CockroachRepository.AssertSchemaHistoryTable | core/database/cockroachdb/cockroach.go:56-83 | writes nothing when the table exists; creates it only when absent |
| Cockroach.CockroachRepository.ValidateMigrations | core/database/cockroachdb/cockroach.go:102-189 | the same cases and errors as the PostgreSQL check |
| Cockroach.CockroachRepository.ExecuteMigration | core/database/cockroachdb/cockroach.go:191-222 | the same upsert; a failed write is reported wrapped with the version |
| Cockroach.CockroachRepository.ExecuteHook | core/database/cockroachdb/cockroach.go:224-231 | an error exactly when the script fails |
| Cockroach.CockroachRepository.RollbackMigration | core/database/cockroachdb/cockroach.go:233-279 | a single error, stopping at the first failure; a failed script keeps the row; no error means the version is gone |
| Cockroach.CockroachRepository.DoInTransaction | core/database/cockroachdb/cockroach.go:281-301 | the same wrapper: no callback without BEGIN, commit only on nil, handle reset on every exit |
| Cockroach.CockroachRepository.Lock | core/database/cockroachdb/cockroach.go:327-365 | the polling loop returns what `Poll` decides, and the marker table exists afterwards exactly when it succeeded |
| Cockroach.CockroachRepository.Unlock | core/database/cockroachdb/cockroach.go:367-374 | drops the marker table or returns the drop's error |
| Cockroach.CockroachRepository.DoInLock | core/database/cockroachdb/cockroach.go:303-321 | the callback runs only after `lock` succeeds and sees the marker table; its error is returned; the table is dropped on the way out and a failed drop panics |
| Cockroach.CockroachRepository.Repair | core/database/cockroachdb/cockroach.go:376-411 | nothing without a table; otherwise the loop leaves exactly `RepairAll`'s ledger and errors |
| Cockroach.CockroachRepository.GetFailingMigrations | core/database/cockroachdb/cockroach.go:413-451 | the table check's error, nothing without a table, the query's error, or exactly `FailingRows` of the ledger |
| Migrator.RunAppend | core/migrator/migrator.go:161-257 | running two lists of steps is running the first, then the second from where it stopped |
| Migrator.ConsumeGroup | core/migrator/migrator.go:164-172 | a callee's group, whose errors the caller appends, stands for issuing the group step by step |
| Migrator.RunClean | core/migrator/migrator.go:297-313 | a run reports no error exactly when no step fails, and then issues every step |
| Migrator.RunStopsAtFirstFailure | core/migrator/migrator.go:300-305 | without Force, the first failing step ends the run with its errors alone |
| Migrator.RunForced | core/migrator/migrator.go:297-313 | with Force, every step is issued and all errors are returned in order |
| Migrator.RunIssuesPrefix | core/migrator/migrator.go:297-313 | a run issues a prefix of its steps |
| Migrator.HookSteps | core/migrator/migrator.go:299-300 | one hook step per hook, in list order |
| Migrator.VersionedExactly | core/migrator/migrator.go:315-333 | a hook is issued exactly when it carries the migration's version |
| Migrator.UpPlanExecutes | core/migrator/migrator.go:161-257 | going up executes exactly the UP migrations in [from, to], in list order, and rolls back nothing |
| Migrator.DownPlanRollsBack | core/migrator/migrator.go:259-295 | going down rolls back exactly the DOWN migrations in [to, from], in list order, and executes nothing |
| Migrator.BetweenAscending | core/migrator/migrator.go:174-177 | from an ascending list, the migrations run in ascending version order |
| Migrator.DefaultIsHighest | core/migrator/migrator.go:72-74 | with the UP list sorted, the default destination is the highest loaded version |
| Migrator.Settled | core/migrator/migrator.go:71-80 | a configured destination is kept; once the latest version is read a destination is set, 0 going down |
| Migrator.SettledOnlyDestination | core/migrator/migrator.go:71-80 | nothing in the configuration but the destination changes |
| Migrator.SettledPersists | core/migrator/migrator_test.go:229-230 | the written destination persists into a later call |
| Migrator.Callback | core/migrator/migrator.go:47-157 | loader errors returned untouched; a failed table assertion or latest-version query returns that error alone; local, then database validation errors are returned alone; with validation passed, the no-op cases (destination equal to the latest version or against the direction) return nil and issue nothing, and a failed BEGIN returns its error alone; a step is issued only after every gate passed, in the configured direction; the work is lost exactly when it ran in a transaction, some step was issued, and a step or the (ignored) commit failed |
| Migrator.Resolved | core/migrator/migrator.go:82-157 | local, then database validation errors are returned alone; with validation passed the three no-op cases return nil and issue nothing, and otherwise a failed BEGIN returns its error alone; a step needs every gate passed and BEGIN to succeed; work lost iff issued in a transaction and a step or the commit failed |
| Migrator.CleanMigration | core/migrator/migrator.go:104-157 | once every gate has passed, the callback reports no error exactly when no step of the plan fails, and then issues the whole plan, lost in a transaction only when the commit fails (with nil still returned): going up it executes exactly the loaded UP migrations in (latest, destination], going down it rolls back exactly the loaded DOWN migrations in [destination, latest] |
| Migrator.OnlyAllowedSteps | core/migrator/migrator.go:126-139 | only pending UP migrations in (latest, dest] are executed going up, only DOWN migrations in [dest, latest] rolled back going down |
| Migrator.MigrateSpec | core/migrator/migrator.go:46-159 | nothing runs without the lock; a failed release panics; otherwise the callback's errors are returned |
| Migrator.Migrator.constructor | core/migrator/migrator.go:24-31 | a migrator over the repository and configuration |
| Migrator.Migrator.ExecuteHooks | core/migrator/migrator.go:297-313 | the loop equals `Run` over the hooks |
| Migrator.Migrator.ExecuteVersionedHooks | core/migrator/migrator.go:315-333 | the loop equals `Run` over the hooks of that version |
| Migrator.Migrator.MigrateUp | core/migrator/migrator.go:161-257 | the loop equals `Run` over the UP plan: Before; per migration in range BeforeEach, BeforeVersion, execute, AfterVersion, AfterEach, Repeatable below the destination; After |
| Migrator.Migrator.HookGroup | core/migrator/migrator.go:164-172 | an optional hook group with the Force early return, as a step of the plan |
| Migrator.Migrator.VersionedGroup | core/migrator/migrator.go:189-197 | an optional versioned hook group with the Force early return |
| Migrator.Migrator.MigrateOne | core/migrator/migrator.go:179-240 | the body for one UP migration follows its steps in the plan |
| Migrator.Migrator.MigrateDown | core/migrator/migrator.go:259-295 | the loop equals `Run` over the DOWN plan: a rollback per migration in range, then RepeatableDown above the destination |
| Migrator.Migrator.MigrateLocked | core/migrator/migrator.go:48-80 | the callback returns `Callback`'s result and leaves the settled configuration |
| Migrator.Migrator.MigrateResolved | core/migrator/migrator.go:82-157 | the part after the destination is fixed returns `Resolved`'s result |
| Migrator.Migrator.Migrate | core/migrator/migrator.go:46-159 | the report is `MigrateSpec`'s; the configuration is settled unless the lock failed |

## Left out

- The `Repository` interface (core/database/repository.go) is not a trait. The orchestrator
  sees it as a record of oracles, and the two implementations are classes with the same
  method names.
- `LoadObjectsFromFiles` and `loadTemplates` are not modelled: the directory reads, the
  goroutine per file, the mutexes and the unsynchronised error append. `Migrate` receives
  their result as a value (`Loaded`). `LoadEntry` models the work done for one entry.
- `generateMd5Checksum` is a parameter (`checksumOf`). MD5 itself is not modelled.
- SQL semantics are oracles: the effect of migration and hook scripts, the SQL text, the
  tuple quoting of the drift query, and PostgreSQL's aborted-transaction behaviour.
  A failed statement is `DbError(statement)`; the driver's messages are not modelled.
- Cross-process exclusion is not modelled: the blocking `pg_advisory_lock`, CockroachDB's
  non-atomic check-then-create, and the 5-second sleeps. Another instance dropping the
  CockroachDB marker table is the `released` oracle.
- zap logging, the context argument, and the connection setup are not modelled.
- The SMALLINT range of the version column, `RowsAffected` failures and row `Scan`
  failures are not modelled. Nor is the "version was not deleted" error for zero rows
  deleted (postgres.go:277-279, cockroach.go:274-276): it cannot happen here, because the
  row's existence was just checked and no other writer exists in the model, so the
  rollback methods have no branch for it.
- Queries without `ORDER BY` (the drift and failing-row queries) are taken to return rows
  in ascending version order.
- Postgres.PostgresRepository.Repair, Cockroach.CockroachRepository.Repair: require every
  migration to carry a checksum. The source dereferences it and would crash without one.
- Postgres.PostgresRepository.ValidateMigrations, Cockroach.CockroachRepository.ValidateMigrations:
  require every UP migration to carry a checksum. The type-check loop dereferences it
  (postgres.go:124, cockroach.go:124) and would crash on an UP migration without one. The
  loader always attaches one (`Loader.WithContent`), so the crash is not modelled.
- File names, migration contents and template contents are taken to be valid UTF-8, seen
  as sequences of code points (`string`). Go's strings are bytes: `strings.TrimSpace`, the
  file-name patterns and the placeholder expression decode UTF-8 and read an invalid byte
  as U+FFFD. Input that is not valid UTF-8 is outside the model.
- Sort stability is not stated. Go's `sort.Slice` is not stable, so equal keys may come
  out in any order. The sorts state only order and permutation.
- Migrator.Migrator.Migrate: requires a non-empty UP list when going up without a
  destination, because `migrator.go:73` indexes its last element.
- hook_type.go is not part of this model. Hook kinds are an enumeration, and the kind of a
  hook file comes from the patterns in internal/conf/conf.go.
- The commit error in `DoInTransaction` is ignored by the source, and so by the model. A
  failed commit leaves the database unchanged. The orchestrator's repository answers the
  commit once (`commit`): a failed commit marks the callback's work as lost (`undone`)
  while `Migrate` still returns nil.
- `migrateUp` is called with `latestMigration+1`, which wraps to 0 at 65535 (`Succ16`).
- Where the repository's tests expect otherwise, the model follows the code. RepeatableDown
  hooks run after every rollback above the destination (migrator.go:280). Going down from
  2 to 0 therefore runs them twice, while migrator_test.go:229-238 expects one row in
  `repeatable_down`.
- Other behaviour of the code that the model keeps as written:
  - the DOWN range includes the destination, so going down to 1 rolls back version 1
    (migrator.go:263);
  - the gap check reports one error per gap, naming its first missing version
    (postgres.go:148-152);
  - repair never sets `success` on an existing row (postgres.go:374-385,
    cockroach.go:392-398);
  - `RollbackMigration` returns a list of errors in PostgreSQL and a single error in
    CockroachDB.

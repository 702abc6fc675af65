/** The value types shared by the migration engine: the fixed-width integers of the
    source, migrations, hooks, the migration configuration and the errors the engine
    reports. */
module Types {

  /** Go's `uint8` and `uint16`. */
  type uint8 = x: int | 0 <= x < 0x100
  type uint16 = x: int | 0 <= x < 0x1_0000

  /** `uint16(v + 1)`: the successor with Go's wrap-around at 2^16. */
  function Succ16(v: uint16): (r: uint16)
    ensures v < 0xFFFF ==> r == v + 1
    ensures v == 0xFFFF ==> r == 0
  {
    (v + 1) % 0x1_0000
  }

  datatype Option<+T> = None | Some(value: T)

  datatype Result<+T> = Ok(value: T) | Err(error: Error)

  /** `enums.MigrationType`: UP (0) or DOWN (1). */
  datatype Direction = Up | Down

  /** `enums.HookType`. */
  datatype HookKind =
    | Before | After | BeforeEach | AfterEach
    | BeforeVersion | AfterVersion | Repeatable | RepeatableDown

  /** `migrations.Migration`; `checksum` is only set for UP migrations. */
  datatype Migration = Migration(
    version: uint16,
    description: string,
    direction: Direction,
    checksum: Option<string>,
    content: string)

  /** `migrations.Hook`; `version` is only meaningful for the version-scoped kinds. */
  datatype Hook = Hook(order: uint8, version: uint16, content: string, kind: HookKind)

  /** `conf.MigrationConfig`. */
  datatype MigrationConfig = MigrationConfig(
    locations: seq<string>,
    validate: bool,
    down: bool,
    inTransaction: bool,
    destination: Option<uint16>,
    force: bool,
    useRepeatable: bool,
    useBefore: bool,
    useAfter: bool,
    useBeforeEach: bool,
    useAfterEach: bool,
    useBeforeVersion: bool,
    useAfterVersion: bool)

  /** The statements a repository call sends to the database, so that a failure can say
      which one failed. `RowQuery(i)` and `RowWrite(i)` belong to the i-th migration of a
      repair, `LockProbe(i)` is the i-th existence check of the CockroachDB lock. */
  datatype Statement =
    | CheckTable | CreateTable | MaxQuery | VersionsQuery | DriftQuery | FailingQuery
    | Script | HistoryWrite | ExistsQuery | Delete
    | RowQuery(index: nat) | RowWrite(index: nat)
    | Begin | Commit
    | AdvisoryLock | AdvisoryUnlock | LockProbe(attempt: nat) | LockCreate | LockDrop

  /** Every error value the engine can produce. `DbError(s)` is the failure of statement
      `s` (the database's own message is not modelled). */
  datatype Error =
    | DbError(at: Statement)
    | InvalidMigrationType(direction: Direction)
    | MissingVersion(expected: uint16)
    | InvalidMigration(version: uint16, description: string, checksum: string)
    | InMigration(version: uint16, cause: Error)
    | LockAcquireFailed(cause: Error)
    | LockReleaseFailed(cause: Error)
    | LockTimeout
    | UnexpectedVersion(expected: uint16, got: uint16)
    | OutOfRange(digits: string)
    | ReadFailed(location: string)
}

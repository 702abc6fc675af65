/** What the two repositories share (core/database/repository.go): the database they talk
    to, the handle their statements go through, and how statement failures, callbacks and
    panics are represented. */
module Database {
  import opened Types
  import opened Ledger

  /** The database server, holding the committed state of its tables. */
  class Db {
    var tables: Tables

    constructor(t: Tables)
      ensures tables == t
    {
      tables := t;
    }
  }

  /** The `queriable` handle: the database itself, or an open transaction together with
      the tables as that transaction sees them. */
  datatype Executor = Direct | InTx(pending: Tables)

  /** Which statements of a call fail (a database error, a broken connection, a script the
      server rejects); the model does not say why. */
  type Failures = Statement -> bool

  /** The callback given to `DoInTransaction` and `DoInLock`, as its effect: from the
      tables it sees to the tables it leaves and the error it returns. */
  type Callback = Tables -> (Tables, Option<Error>)

  /** How a call ends: it returns, with or without an error, or it panics. */
  datatype Exit = Returned(err: Option<Error>) | Panicked(cause: Error)
}

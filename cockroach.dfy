/** The CockroachDB repository (core/database/cockroachdb/cockroach.go). It keeps the same
    ledger as the PostgreSQL one; it differs in its rollback, which stops at the first
    failure, in its repair, one upsert per migration, and in its lock, a marker table
    polled a bounded number of times. */
module Cockroach {
  import opened Types
  import opened Ledger
  import opened Database
  import Postgres

  /** How many times `lock` checks for the marker table. */
  const LockAttempts: nat := 12

  /** Did every probe before `k` succeed and find the marker table still there? */
  predicate Waited(lockTable: bool, fails: Failures, released: nat -> bool, k: nat) {
    forall j :: 0 <= j < k ==> !fails(LockProbe(j)) && lockTable && !released(j)
  }

  /** The `lock` loop from a given attempt on. Probe `i` sees the marker table when it
      existed at the start and no other instance had dropped it by then (`released(i)`);
      the first probe that does not see it creates it. */
  function Poll(lockTable: bool, fails: Failures, released: nat -> bool, attempt: nat): (r: Option<Error>)
    requires attempt <= LockAttempts
    decreases LockAttempts - attempt
  {
    if attempt == LockAttempts then Some(LockTimeout)
    else if fails(LockProbe(attempt)) then Some(DbError(LockProbe(attempt)))
    else if !lockTable || released(attempt) then
      (if fails(LockCreate) then Some(DbError(LockCreate)) else None)
    else Poll(lockTable, fails, released, attempt + 1)
  }

  /** Probes that found the table changed nothing: the outcome is decided later. */
  lemma {:induction false} PollSkip(lockTable: bool, fails: Failures, released: nat -> bool, k: nat)
    requires k <= LockAttempts && Waited(lockTable, fails, released, k)
    ensures Poll(lockTable, fails, released, 0) == Poll(lockTable, fails, released, k)
    decreases k
  {
    if k > 0 {
      PollSkip(lockTable, fails, released, k - 1);
    }
  }

  lemma {:induction false} TimeoutFrom(lockTable: bool, fails: Failures, released: nat -> bool, i: nat)
    requires i <= LockAttempts
    requires Poll(lockTable, fails, released, i) == Some(LockTimeout)
    ensures forall j :: i <= j < LockAttempts ==> !fails(LockProbe(j)) && lockTable && !released(j)
    decreases LockAttempts - i
  {
    if i < LockAttempts {
      TimeoutFrom(lockTable, fails, released, i + 1);
    }
  }

  /** `lock` times out exactly when all twelve probes succeed and find the table. */
  lemma PollTimeout(lockTable: bool, fails: Failures, released: nat -> bool)
    ensures Poll(lockTable, fails, released, 0) == Some(LockTimeout) <==> Waited(lockTable, fails, released, LockAttempts)
  {
    if Waited(lockTable, fails, released, LockAttempts) {
      PollSkip(lockTable, fails, released, LockAttempts);
    }
    if Poll(lockTable, fails, released, 0) == Some(LockTimeout) {
      TimeoutFrom(lockTable, fails, released, 0);
    }
  }

  lemma {:induction false} AcquiredFrom(lockTable: bool, fails: Failures, released: nat -> bool, i: nat)
    requires i <= LockAttempts && Waited(lockTable, fails, released, i)
    requires Poll(lockTable, fails, released, i).None?
    ensures exists k :: i <= k < LockAttempts && Acquires(lockTable, fails, released, k)
    decreases LockAttempts - i
  {
    if !fails(LockProbe(i)) && (!lockTable || released(i)) {
      assert Acquires(lockTable, fails, released, i);
    } else {
      AcquiredFrom(lockTable, fails, released, i + 1);
    }
  }

  /** Attempt `k` is the one that takes the lock: every earlier probe found the table, this
      one succeeded and did not, and the table was created. */
  predicate Acquires(lockTable: bool, fails: Failures, released: nat -> bool, k: nat) {
    && k < LockAttempts
    && Waited(lockTable, fails, released, k)
    && !fails(LockProbe(k)) && (!lockTable || released(k))
    && !fails(LockCreate)
  }

  /** `lock` succeeds exactly when some attempt within the twelve takes it. */
  lemma PollAcquired(lockTable: bool, fails: Failures, released: nat -> bool)
    ensures Poll(lockTable, fails, released, 0).None? <==>
            exists k :: 0 <= k < LockAttempts && Acquires(lockTable, fails, released, k)
  {
    if Poll(lockTable, fails, released, 0).None? {
      AcquiredFrom(lockTable, fails, released, 0);
    } else if k :| 0 <= k < LockAttempts && Acquires(lockTable, fails, released, k) {
      PollSkip(lockTable, fails, released, k);
    }
  }

  /** A probe that fails ends `lock` at once with that error. */
  lemma PollProbeError(lockTable: bool, fails: Failures, released: nat -> bool, k: nat)
    requires k < LockAttempts && Waited(lockTable, fails, released, k) && fails(LockProbe(k))
    ensures Poll(lockTable, fails, released, 0) == Some(DbError(LockProbe(k)))
  {
    PollSkip(lockTable, fails, released, k);
  }

  /** One migration of `Repair`: a single upsert that inserts a missing row as
      successful and repaired now, or rewrites description and checksum of an existing
      row, stamping it only when one of them changed. */
  function RepairStep(l: History, m: Migration, i: nat, fails: Failures, now: nat): (r: (History, seq<Error>))
    requires m.checksum.Some?
    ensures |r.1| <= 1
    ensures forall v :: v in l ==> v in r.0 && r.0[v].success == l[v].success && r.0[v].executedAt == l[v].executedAt
  {
    if fails(RowWrite(i)) then (l, [DbError(RowWrite(i))])
    else (l[m.version := RepairedRow(l, m.version, m.description, m.checksum.value, now)], [])
  }

  /** `Repair` over a list of migrations, the i-th using statement `RowWrite(i)`. */
  function RepairAll(l: History, ms: seq<Migration>, fails: Failures, now: nat): (r: (History, seq<Error>))
    requires forall i :: 0 <= i < |ms| ==> ms[i].checksum.Some?
    decreases |ms|
  {
    if ms == [] then (l, [])
    else
      var prior := RepairAll(l, ms[..|ms| - 1], fails, now);
      var last := RepairStep(prior.0, ms[|ms| - 1], |ms| - 1, fails, now);
      (last.0, prior.1 + last.1)
  }

  /** `RepairAll` over the first i + 1 migrations: the one at i repaired after the others. */
  lemma RepairAllAt(l: History, ms: seq<Migration>, i: nat, j: nat, fails: Failures, now: nat)
    requires forall k :: 0 <= k < |ms| ==> ms[k].checksum.Some?
    requires i < |ms| && j == i + 1
    ensures var prior := RepairAll(l, ms[..i], fails, now);
            var last := RepairStep(prior.0, ms[i], i, fails, now);
            RepairAll(l, ms[..j], fails, now) == (last.0, prior.1 + last.1)
  {
    assert ms[..j][..i] == ms[..i];
  }

  /** Unless a PostgreSQL row read fails, both backends' repairs leave the same ledger:
      the single upsert rewrites a matching row with its own values. */
  lemma {:induction false} RepairSameAsPostgres(l: History, ms: seq<Migration>, fails: Failures, now: nat)
    requires forall i :: 0 <= i < |ms| ==> ms[i].checksum.Some?
    requires forall i :: !fails(RowQuery(i))
    ensures RepairAll(l, ms, fails, now).0 == Postgres.RepairAll(l, ms, fails, now).0
    decreases |ms|
  {
    if ms != [] {
      var init := ms[..|ms| - 1];
      RepairSameAsPostgres(l, init, fails, now);
      var prior := RepairAll(l, init, fails, now).0;
      var m := ms[|ms| - 1];
      if Postgres.Matches(prior, m) {
        assert prior[m.version := RepairedRow(prior, m.version, m.description, m.checksum.value, now)] == prior;
      }
    }
  }

  /** A repair keeps every row's `success` flag and reports at most one error per
      migration. */
  lemma {:induction false} RepairKeepsSuccess(l: History, ms: seq<Migration>, fails: Failures, now: nat)
    requires forall i :: 0 <= i < |ms| ==> ms[i].checksum.Some?
    ensures var r := RepairAll(l, ms, fails, now);
            && (forall v :: v in l ==> v in r.0 && r.0[v].success == l[v].success && r.0[v].executedAt == l[v].executedAt)
            && |r.1| <= |ms|
    decreases |ms|
  {
    if ms != [] {
      RepairKeepsSuccess(l, ms[..|ms| - 1], fails, now);
    }
  }

  class CockroachRepository {
    const db: Db
    var queriable: Executor

    /** `NewCockroachRepository`: statements go straight to the database. */
    constructor(db: Db)
      ensures this.db == db && queriable == Direct
    {
      this.db := db;
      queriable := Direct;
    }

    /** The tables as this repository's statements see them. */
    function View(): Tables
      reads this, db
    {
      match queriable
        case Direct => db.tables
        case InTx(pending) => pending
    }

    /** The call's statements left the tables `t` behind, through the handle it started
        with: written to the database, or held in the open transaction. */
    twostate predicate WroteThrough(t: Tables)
      reads this, db
    {
      match old(queriable)
        case Direct => queriable == Direct && db.tables == t
        case InTx(_) => queriable == InTx(t) && db.tables == old(db.tables)
    }

    method Store(t: Tables)
      modifies this, db
      ensures WroteThrough(t)
    {
      match queriable
        case Direct => db.tables := t;
        case InTx(_) => queriable := InTx(t);
    }

    /** `CheckSchemaHistoryTable`: reports whether `schema_history` exists. */
    method CheckSchemaHistoryTable(fails: Failures) returns (r: Result<bool>)
      ensures fails(CheckTable) ==> r == Err(DbError(CheckTable))
      ensures !fails(CheckTable) ==> r == Ok(View().history)
    {
      if fails(CheckTable) {
        return Err(DbError(CheckTable));
      }
      return Ok(View().history);
    }

    /** `GetLatestMigration`: 0 without a table, otherwise the highest successful
        version (0 when there is none). */
    method GetLatestMigration(fails: Failures) returns (r: Result<uint16>)
      ensures fails(CheckTable) ==> r == Err(DbError(CheckTable))
      ensures !fails(CheckTable) && !View().history ==> r == Ok(0)
      ensures !fails(CheckTable) && View().history && fails(MaxQuery) ==> r == Err(DbError(MaxQuery))
      ensures !fails(CheckTable) && View().history && !fails(MaxQuery) ==>
                r.Ok? && (forall v :: v in View().ledger && View().ledger[v].success ==> v <= r.value)
                && (r.value == 0 || (r.value in View().ledger && View().ledger[r.value].success))
    {
      var present := CheckSchemaHistoryTable(fails);
      if present.Err? {
        return Err(present.error);
      }
      if !present.value {
        return Ok(0);
      }
      if fails(MaxQuery) {
        return Err(DbError(MaxQuery));
      }
      return Ok(LatestSuccess(View().ledger));
    }

    /** `AssertSchemaHistoryTable`: creates the table only when it is absent. */
    method AssertSchemaHistoryTable(fails: Failures) returns (err: Option<Error>)
      modifies this, db
      ensures fails(CheckTable) ==> err == Some(DbError(CheckTable)) && WroteThrough(old(View()))
      ensures !fails(CheckTable) && old(View()).history ==> err == None && WroteThrough(old(View()))
      ensures !fails(CheckTable) && !old(View()).history && fails(CreateTable) ==>
                err == Some(DbError(CreateTable)) && WroteThrough(old(View()))
      ensures !fails(CheckTable) && !old(View()).history && !fails(CreateTable) ==>
                err == None && WroteThrough(CreateIfAbsent(old(View())))
      ensures err.None? ==> View().history
    {
      var present := CheckSchemaHistoryTable(fails);
      if present.Err? {
        return Some(present.error);
      }
      if present.value {
        return None;
      }
      if fails(CreateTable) {
        return Some(DbError(CreateTable));
      }
      Store(CreateIfAbsent(View()));
      return None;
    }

    /** `ValidateMigrations`: the same checks as the PostgreSQL repository. */
    method ValidateMigrations(ms: seq<Migration>, fails: Failures) returns (errs: seq<Error>)
      requires forall i :: 0 <= i < |ms| && ms[i].direction == Up ==> ms[i].checksum.Some?
      ensures |ms| == 0 ==> errs == []
      ensures |ms| > 0 && fails(CheckTable) ==> errs == [DbError(CheckTable)]
      ensures |ms| > 0 && !fails(CheckTable) && !View().history ==> errs == []
      ensures (&& |ms| > 0 && !fails(CheckTable) && View().history
               && exists i :: 0 <= i < |ms| && ms[i].direction != Up) ==> errs == [InvalidMigrationType(Down)]
      ensures (&& |ms| > 0 && !fails(CheckTable) && View().history
               && forall i :: 0 <= i < |ms| ==> ms[i].direction == Up) ==>
                errs == (if fails(VersionsQuery) then [DbError(VersionsQuery)]
                         else if fails(DriftQuery) then [DbError(DriftQuery)]
                         else GapErrors(Versions(View().ledger), 1) + DriftErrors(View().ledger, ms))
    {
      if |ms| < 1 {
        return [];
      }
      var present := CheckSchemaHistoryTable(fails);
      if present.Err? {
        return [present.error];
      }
      if !present.value {
        return [];
      }
      for i := 0 to |ms|
        invariant forall j :: 0 <= j < i ==> ms[j].direction == Up
      {
        if ms[i].direction != Up {
          return [InvalidMigrationType(ms[i].direction)];
        }
      }
      if fails(VersionsQuery) {
        return [DbError(VersionsQuery)];
      }
      var l := View().ledger;
      var vs := Versions(l);
      errs := GapCheck(vs);
      if fails(DriftQuery) {
        return [DbError(DriftQuery)];
      }
      var drift := DriftCheck(vs, l, ms);
      errs := errs + drift;
    }

    /** `ExecuteMigration`: as in the PostgreSQL repository, except that a failed ledger
        write is reported wrapped with the migration's version. */
    method ExecuteMigration(m: Migration, fails: Failures, now: nat) returns (errs: seq<Error>)
      modifies this, db
      ensures m.direction != Up ==> errs == [InvalidMigrationType(m.direction)] && WroteThrough(old(View()))
      ensures m.direction == Up ==>
                var t := old(View());
                var written := !fails(HistoryWrite) && t.history && m.checksum.Some?;
                && errs == (if fails(Script) then [DbError(Script)] else [])
                           + (if written then [] else [InMigration(m.version, DbError(HistoryWrite))])
                && WroteThrough(if written
                                then t.(ledger := Upsert(t.ledger, m.version, m.description, m.checksum.value, !fails(Script), now))
                                else t)
    {
      if m.direction != Up {
        return [InvalidMigrationType(m.direction)];
      }
      errs := [];
      var scriptOk := !fails(Script);
      if !scriptOk {
        errs := errs + [DbError(Script)];
      }
      var t := View();
      if fails(HistoryWrite) || !t.history || m.checksum.None? {
        errs := errs + [InMigration(m.version, DbError(HistoryWrite))];
      } else {
        Store(t.(ledger := Upsert(t.ledger, m.version, m.description, m.checksum.value, scriptOk, now)));
      }
    }

    /** `ExecuteHook`: runs the hook's script; its failure is the error. */
    method ExecuteHook(h: Hook, fails: Failures) returns (err: Option<Error>)
      ensures err.Some? <==> fails(Script)
      ensures err.Some? ==> err.value == DbError(Script)
    {
      if fails(Script) {
        return Some(DbError(Script));
      }
      return None;
    }

    /** `RollbackMigration`: stops at the first failure. A failed down script leaves the
        row in place; only a script that succeeded is followed by the delete. */
    method RollbackMigration(m: Migration, fails: Failures) returns (err: Option<Error>)
      modifies this, db
      ensures m.direction != Down ==> err == Some(InvalidMigrationType(m.direction)) && WroteThrough(old(View()))
      ensures m.direction == Down && (fails(ExistsQuery) || !old(View()).history) ==>
                err == Some(DbError(ExistsQuery)) && WroteThrough(old(View()))
      ensures m.direction == Down && !fails(ExistsQuery) && old(View()).history && m.version !in old(View()).ledger ==>
                err == None && WroteThrough(old(View()))
      ensures (&& m.direction == Down && !fails(ExistsQuery) && old(View()).history && m.version in old(View()).ledger
               && fails(Script)) ==> err == Some(DbError(Script)) && WroteThrough(old(View()))
      ensures (&& m.direction == Down && !fails(ExistsQuery) && old(View()).history && m.version in old(View()).ledger
               && !fails(Script)) ==>
                && err == (if fails(Delete) then Some(DbError(Delete)) else None)
                && WroteThrough(if fails(Delete) then old(View())
                                else old(View()).(ledger := old(View()).ledger - {m.version}))
      ensures err.None? ==> m.version !in View().ledger
    {
      if m.direction != Down {
        return Some(InvalidMigrationType(m.direction));
      }
      var t := View();
      if fails(ExistsQuery) || !t.history {
        return Some(DbError(ExistsQuery));
      }
      if m.version !in t.ledger {
        return None;
      }
      if fails(Script) {
        return Some(DbError(Script));
      }
      if fails(Delete) {
        return Some(DbError(Delete));
      }
      Store(t.(ledger := t.ledger - {m.version}));
      return None;
    }

    /** `DoInTransaction`: the same wrapper as the PostgreSQL repository's. */
    method DoInTransaction(fn: Callback, fails: Failures) returns (err: Option<Error>)
      modifies this, db
      ensures fails(Begin) ==> err == Some(DbError(Begin)) && queriable == old(queriable) && db.tables == old(db.tables)
      ensures !fails(Begin) ==>
                && queriable == Direct
                && err == fn(old(db.tables)).1
                && db.tables == (if err.None? && !fails(Commit) then fn(old(db.tables)).0 else old(db.tables))
    {
      if fails(Begin) {
        return Some(DbError(Begin));
      }
      queriable := InTx(db.tables);
      var outcome := fn(View());
      Store(outcome.0);
      if outcome.1.Some? {
        queriable := Direct;
        return outcome.1;
      }
      if !fails(Commit) {
        db.tables := View();
      }
      queriable := Direct;
      return None;
    }

    /** `lock`: at most twelve probes for the marker table through the database handle;
        the first probe that does not find it creates it. A failed probe or create ends
        the loop with its error, and twelve probes that all find the table end it with a
        timeout. */
    method Lock(fails: Failures, released: nat -> bool) returns (err: Option<Error>)
      modifies db
      ensures err == Poll(old(db.tables).lockTable, fails, released, 0)
      ensures db.tables == (if err.None? then old(db.tables).(lockTable := true) else old(db.tables))
    {
      ghost var lockTable := db.tables.lockTable;
      var success := false;
      for attempt := 0 to LockAttempts
        invariant !success && db.tables == old(db.tables)
        invariant Poll(lockTable, fails, released, 0) == Poll(lockTable, fails, released, attempt)
      {
        if fails(LockProbe(attempt)) {
          return Some(DbError(LockProbe(attempt)));
        }
        var present := db.tables.lockTable && !released(attempt);
        if !present {
          if fails(LockCreate) {
            return Some(DbError(LockCreate));
          }
          db.tables := db.tables.(lockTable := true);
          success := true;
          break;
        }
      }
      if !success {
        return Some(LockTimeout);
      }
      return None;
    }

    /** `unlock`: drops the marker table. */
    method Unlock(fails: Failures) returns (err: Option<Error>)
      modifies db
      ensures err == (if fails(LockDrop) then Some(DbError(LockDrop)) else None)
      ensures db.tables == (if fails(LockDrop) then old(db.tables) else old(db.tables).(lockTable := false))
    {
      if fails(LockDrop) {
        return Some(DbError(LockDrop));
      }
      db.tables := db.tables.(lockTable := false);
      return None;
    }

    /** `DoInLock`: the callback runs only once `lock` succeeded, with the marker table
        present; its error is returned. The marker table is dropped on the way out, and a
        failed drop panics. */
    method DoInLock(fn: Callback, fails: Failures, released: nat -> bool) returns (exit: Exit)
      modifies this, db
      ensures var acquired := Poll(old(db.tables).lockTable, fails, released, 0);
              acquired.Some? ==> exit == Returned(acquired) && queriable == old(queriable) && db.tables == old(db.tables)
      ensures Poll(old(db.tables).lockTable, fails, released, 0).None? ==>
                var held := old(db.tables).(lockTable := true);
                var seen := if old(queriable).Direct? then held else old(queriable).pending;
                && exit == (if fails(LockDrop) then Panicked(LockReleaseFailed(DbError(LockDrop)))
                            else Returned(fn(seen).1))
                && (old(queriable).Direct? ==>
                      queriable == Direct && db.tables == (if fails(LockDrop) then fn(held).0 else fn(held).0.(lockTable := false)))
                && (old(queriable).InTx? ==>
                      queriable == InTx(fn(seen).0) && db.tables == (if fails(LockDrop) then held else held.(lockTable := false)))
    {
      var err := Lock(fails, released);
      if err.Some? {
        return Returned(err);
      }
      var outcome := fn(View());
      Store(outcome.0);
      err := Unlock(fails);
      if err.Some? {
        return Panicked(LockReleaseFailed(err.value));
      }
      return Returned(outcome.1);
    }

    /** `Repair`: nothing without a table; otherwise one upsert per migration, collecting
        the failed ones' errors. */
    method Repair(ms: seq<Migration>, fails: Failures, now: nat) returns (errs: seq<Error>)
      requires forall i :: 0 <= i < |ms| ==> ms[i].checksum.Some?
      modifies this, db
      ensures fails(CheckTable) ==> errs == [DbError(CheckTable)] && WroteThrough(old(View()))
      ensures !fails(CheckTable) && !old(View()).history ==> errs == [] && WroteThrough(old(View()))
      ensures !fails(CheckTable) && old(View()).history ==>
                var r := RepairAll(old(View()).ledger, ms, fails, now);
                errs == r.1 && WroteThrough(old(View()).(ledger := r.0))
    {
      var present := CheckSchemaHistoryTable(fails);
      if present.Err? {
        return [present.error];
      }
      if !present.value {
        return [];
      }
      ghost var t := View();
      errs := [];
      for i := 0 to |ms|
        invariant View() == t.(ledger := RepairAll(t.ledger, ms[..i], fails, now).0)
        invariant errs == RepairAll(t.ledger, ms[..i], fails, now).1
        invariant WroteThrough(View())
      {
        RepairAllAt(t.ledger, ms, i, i + 1, fails, now);
        var m := ms[i];
        var l := View().ledger;
        if fails(RowWrite(i)) {
          errs := errs + [DbError(RowWrite(i))];
        } else {
          var row :=
            if m.version !in l then Row(m.description, m.checksum.value, true, now, Some(now))
            else
              var old_row := l[m.version];
              var changed := m.description != old_row.description || m.checksum.value != old_row.checksum;
              old_row.(description := m.description, checksum := m.checksum.value,
                       repairedAt := if changed then Some(now) else old_row.repairedAt);
          assert row == RepairedRow(l, m.version, m.description, m.checksum.value, now);
          Store(View().(ledger := l[m.version := row]));
        }
      }
      assert ms[..|ms|] == ms;
    }

    /** `GetFailingMigrations`: nothing without a table, otherwise exactly the rows
        whose script failed. */
    method GetFailingMigrations(fails: Failures) returns (r: Result<seq<Migration>>)
      ensures fails(CheckTable) ==> r == Err(DbError(CheckTable))
      ensures !fails(CheckTable) && !View().history ==> r == Ok([])
      ensures !fails(CheckTable) && View().history && fails(FailingQuery) ==> r == Err(DbError(FailingQuery))
      ensures !fails(CheckTable) && View().history && !fails(FailingQuery) ==>
                r == Ok(FailingRows(View().ledger))
    {
      var present := CheckSchemaHistoryTable(fails);
      if present.Err? {
        return Err(present.error);
      }
      if !present.value {
        return Ok([]);
      }
      if fails(FailingQuery) {
        return Err(DbError(FailingQuery));
      }
      return Ok(FailingRows(View().ledger));
    }
  }
}

/** The PostgreSQL repository (core/database/postgres/postgres.go): the ledger operations
    over `schema_history`, a transaction wrapper that swaps the `queriable` handle, and an
    advisory lock. */
module Postgres {
  import opened Types
  import opened Ledger
  import opened Database

  /** One migration of `Repair`: its row is read; a missing row is inserted, a row whose
      description or checksum differs is updated, a matching row is left alone. A failed
      read or write is that migration's error and the loop moves on. */
  function RepairStep(l: History, m: Migration, i: nat, fails: Failures, now: nat): (r: (History, seq<Error>))
    requires m.checksum.Some?
    ensures |r.1| <= 1
    ensures r.1 == [] ==> Matches(r.0, m)
    ensures forall v :: v in l ==> v in r.0 && r.0[v].success == l[v].success && r.0[v].executedAt == l[v].executedAt
    ensures forall v :: v in r.0 ==> v in l || v == m.version
    ensures forall v :: v in l && v != m.version ==> r.0[v] == l[v]
  {
    var v := m.version;
    if fails(RowQuery(i)) then (l, [DbError(RowQuery(i))])
    else if Matches(l, m) then (l, [])
    else if fails(RowWrite(i)) then (l, [DbError(RowWrite(i))])
    else (l[v := RepairedRow(l, v, m.description, m.checksum.value, now)], [])
  }

  /** Does the ledger hold the migration's version with its description and checksum? */
  predicate Matches(l: History, m: Migration)
    requires m.checksum.Some?
  {
    m.version in l && l[m.version].description == m.description && l[m.version].checksum == m.checksum.value
  }

  /** `Repair` over a list of migrations, the i-th using statements `RowQuery(i)` and
      `RowWrite(i)`: the ledger it leaves and the errors it collects, in order. */
  function RepairAll(l: History, ms: seq<Migration>, fails: Failures, now: nat): (r: (History, seq<Error>))
    requires forall i :: 0 <= i < |ms| ==> ms[i].checksum.Some?
    decreases |ms|
  {
    if ms == [] then (l, [])
    else
      var prior := RepairAll(l, ms[..|ms| - 1], fails, now);
      var last := RepairStep(prior.0, ms[|ms| - 1], |ms| - 1, fails, now);
      (last.0, prior.1 + last.1)
  }

  /** `RepairAll` over the first i + 1 migrations: the one at i repaired after the others. */
  lemma RepairAllAt(l: History, ms: seq<Migration>, i: nat, j: nat, fails: Failures, now: nat)
    requires forall k :: 0 <= k < |ms| ==> ms[k].checksum.Some?
    requires i < |ms| && j == i + 1
    ensures var prior := RepairAll(l, ms[..i], fails, now);
            var last := RepairStep(prior.0, ms[i], i, fails, now);
            RepairAll(l, ms[..j], fails, now) == (last.0, prior.1 + last.1)
  {
    assert ms[..j][..i] == ms[..i];
  }

  /** A repair never touches the `success` flag or execution time of a row it finds, and
      reports at most one error per migration. */
  lemma {:induction false} RepairKeepsSuccess(l: History, ms: seq<Migration>, fails: Failures, now: nat)
    requires forall i :: 0 <= i < |ms| ==> ms[i].checksum.Some?
    ensures var r := RepairAll(l, ms, fails, now);
            && (forall v :: v in l ==> v in r.0 && r.0[v].success == l[v].success && r.0[v].executedAt == l[v].executedAt)
            && |r.1| <= |ms|
    decreases |ms|
  {
    if ms != [] {
      RepairKeepsSuccess(l, ms[..|ms| - 1], fails, now);
    }
  }

  /** When no statement fails and the versions are distinct, the repair reports nothing
      and afterwards every local migration's row carries its description and checksum. */
  lemma {:induction false} RepairMatchesLocal(l: History, ms: seq<Migration>, fails: Failures, now: nat)
    requires forall i :: 0 <= i < |ms| ==> ms[i].checksum.Some?
    requires forall i :: !fails(RowQuery(i)) && !fails(RowWrite(i))
    requires forall i, j :: 0 <= i < j < |ms| ==> ms[i].version != ms[j].version
    ensures RepairAll(l, ms, fails, now).1 == []
    ensures forall i :: 0 <= i < |ms| ==> Matches(RepairAll(l, ms, fails, now).0, ms[i])
    decreases |ms|
  {
    if ms != [] {
      var init := ms[..|ms| - 1];
      RepairMatchesLocal(l, init, fails, now);
      var prior := RepairAll(l, init, fails, now);
      var r := RepairStep(prior.0, ms[|ms| - 1], |ms| - 1, fails, now);
      forall i | 0 <= i < |ms| ensures Matches(r.0, ms[i]) {
        if i < |ms| - 1 {
          assert init[i] == ms[i];
          assert Matches(prior.0, init[i]);
        }
      }
    }
  }

  class PostgresRepository {
    const db: Db
    var queriable: Executor

    /** `NewPostgresRepository`: statements go straight to the database. */
    constructor(db: Db)
      ensures this.db == db && queriable == Direct
    {
      this.db := db;
      queriable := Direct;
    }

    /** The tables as this repository's statements see them. */
    function View(): Tables
      reads this, db
    {
      match queriable
        case Direct => db.tables
        case InTx(pending) => pending
    }

    /** The call's statements left the tables `t` behind, through the handle it started
        with: written to the database, or held in the open transaction. */
    twostate predicate WroteThrough(t: Tables)
      reads this, db
    {
      match old(queriable)
        case Direct => queriable == Direct && db.tables == t
        case InTx(_) => queriable == InTx(t) && db.tables == old(db.tables)
    }

    method Store(t: Tables)
      modifies this, db
      ensures WroteThrough(t)
    {
      match queriable
        case Direct => db.tables := t;
        case InTx(_) => queriable := InTx(t);
    }

    /** `CheckSchemaHistoryTable`: reports whether `schema_history` exists. */
    method CheckSchemaHistoryTable(fails: Failures) returns (r: Result<bool>)
      ensures fails(CheckTable) ==> r == Err(DbError(CheckTable))
      ensures !fails(CheckTable) ==> r == Ok(View().history)
    {
      if fails(CheckTable) {
        return Err(DbError(CheckTable));
      }
      return Ok(View().history);
    }

    /** `GetLatestMigration`: 0 without a table, otherwise the highest successful
        version (0 when there is none). */
    method GetLatestMigration(fails: Failures) returns (r: Result<uint16>)
      ensures fails(CheckTable) ==> r == Err(DbError(CheckTable))
      ensures !fails(CheckTable) && !View().history ==> r == Ok(0)
      ensures !fails(CheckTable) && View().history && fails(MaxQuery) ==> r == Err(DbError(MaxQuery))
      ensures !fails(CheckTable) && View().history && !fails(MaxQuery) ==>
                r.Ok? && (forall v :: v in View().ledger && View().ledger[v].success ==> v <= r.value)
                && (r.value == 0 || (r.value in View().ledger && View().ledger[r.value].success))
    {
      var present := CheckSchemaHistoryTable(fails);
      if present.Err? {
        return Err(present.error);
      }
      if !present.value {
        return Ok(0);
      }
      if fails(MaxQuery) {
        return Err(DbError(MaxQuery));
      }
      return Ok(LatestSuccess(View().ledger));
    }

    /** `AssertSchemaHistoryTable`: creates the table only when it is absent. */
    method AssertSchemaHistoryTable(fails: Failures) returns (err: Option<Error>)
      modifies this, db
      ensures fails(CheckTable) ==> err == Some(DbError(CheckTable)) && WroteThrough(old(View()))
      ensures !fails(CheckTable) && old(View()).history ==> err == None && WroteThrough(old(View()))
      ensures !fails(CheckTable) && !old(View()).history && fails(CreateTable) ==>
                err == Some(DbError(CreateTable)) && WroteThrough(old(View()))
      ensures !fails(CheckTable) && !old(View()).history && !fails(CreateTable) ==>
                err == None && WroteThrough(CreateIfAbsent(old(View())))
      ensures err.None? ==> View().history
    {
      var present := CheckSchemaHistoryTable(fails);
      if present.Err? {
        return Some(present.error);
      }
      if present.value {
        return None;
      }
      if fails(CreateTable) {
        return Some(DbError(CreateTable));
      }
      Store(CreateIfAbsent(View()));
      return None;
    }

    /** `ValidateMigrations`: nothing for an empty list or a missing table; one error for
        a list holding a DOWN migration; otherwise the gap errors of the ledger followed by
        one error per successful row that no local migration matches. */
    method ValidateMigrations(ms: seq<Migration>, fails: Failures) returns (errs: seq<Error>)
      requires forall i :: 0 <= i < |ms| && ms[i].direction == Up ==> ms[i].checksum.Some?
      ensures |ms| == 0 ==> errs == []
      ensures |ms| > 0 && fails(CheckTable) ==> errs == [DbError(CheckTable)]
      ensures |ms| > 0 && !fails(CheckTable) && !View().history ==> errs == []
      ensures (&& |ms| > 0 && !fails(CheckTable) && View().history
               && exists i :: 0 <= i < |ms| && ms[i].direction != Up) ==> errs == [InvalidMigrationType(Down)]
      ensures (&& |ms| > 0 && !fails(CheckTable) && View().history
               && forall i :: 0 <= i < |ms| ==> ms[i].direction == Up) ==>
                errs == (if fails(VersionsQuery) then [DbError(VersionsQuery)]
                         else if fails(DriftQuery) then [DbError(DriftQuery)]
                         else GapErrors(Versions(View().ledger), 1) + DriftErrors(View().ledger, ms))
    {
      if |ms| < 1 {
        return [];
      }
      var present := CheckSchemaHistoryTable(fails);
      if present.Err? {
        return [present.error];
      }
      if !present.value {
        return [];
      }
      for i := 0 to |ms|
        invariant forall j :: 0 <= j < i ==> ms[j].direction == Up
      {
        if ms[i].direction != Up {
          return [InvalidMigrationType(ms[i].direction)];
        }
      }
      if fails(VersionsQuery) {
        return [DbError(VersionsQuery)];
      }
      var l := View().ledger;
      var vs := Versions(l);
      errs := GapCheck(vs);
      if fails(DriftQuery) {
        return [DbError(DriftQuery)];
      }
      var drift := DriftCheck(vs, l, ms);
      errs := errs + drift;
    }

    /** `ExecuteMigration`: a non-UP migration is refused; otherwise the script runs and
        the row is upserted with `success` telling whether the script succeeded. The
        errors are the script's and the ledger write's, in that order. The write fails
        without a table, and when the checksum is missing (the column is NOT NULL). */
    method ExecuteMigration(m: Migration, fails: Failures, now: nat) returns (errs: seq<Error>)
      modifies this, db
      ensures m.direction != Up ==> errs == [InvalidMigrationType(m.direction)] && WroteThrough(old(View()))
      ensures m.direction == Up ==>
                var t := old(View());
                var written := !fails(HistoryWrite) && t.history && m.checksum.Some?;
                && errs == (if fails(Script) then [DbError(Script)] else [])
                           + (if written then [] else [DbError(HistoryWrite)])
                && WroteThrough(if written
                                then t.(ledger := Upsert(t.ledger, m.version, m.description, m.checksum.value, !fails(Script), now))
                                else t)
    {
      if m.direction != Up {
        return [InvalidMigrationType(m.direction)];
      }
      errs := [];
      var scriptOk := !fails(Script);
      if !scriptOk {
        errs := errs + [DbError(Script)];
      }
      var t := View();
      if fails(HistoryWrite) || !t.history || m.checksum.None? {
        errs := errs + [DbError(HistoryWrite)];
      } else {
        Store(t.(ledger := Upsert(t.ledger, m.version, m.description, m.checksum.value, scriptOk, now)));
      }
    }

    /** `ExecuteHook`: runs the hook's script; its failure is the error. */
    method ExecuteHook(h: Hook, fails: Failures) returns (err: Option<Error>)
      ensures err.Some? <==> fails(Script)
      ensures err.Some? ==> err.value == DbError(Script)
    {
      if fails(Script) {
        return Some(DbError(Script));
      }
      return None;
    }

    /** `RollbackMigration`: a non-DOWN migration is refused; a version with no row is
        skipped without running the script; otherwise the script runs and the row is
        deleted even when the script failed. */
    method RollbackMigration(m: Migration, fails: Failures) returns (errs: seq<Error>)
      modifies this, db
      ensures m.direction != Down ==> errs == [InvalidMigrationType(m.direction)] && WroteThrough(old(View()))
      ensures m.direction == Down && (fails(ExistsQuery) || !old(View()).history) ==>
                errs == [DbError(ExistsQuery)] && WroteThrough(old(View()))
      ensures m.direction == Down && !fails(ExistsQuery) && old(View()).history && m.version !in old(View()).ledger ==>
                errs == [] && WroteThrough(old(View()))
      ensures m.direction == Down && !fails(ExistsQuery) && old(View()).history && m.version in old(View()).ledger ==>
                && errs == (if fails(Script) then [DbError(Script)] else []) + (if fails(Delete) then [DbError(Delete)] else [])
                && WroteThrough(if fails(Delete) then old(View())
                                else old(View()).(ledger := old(View()).ledger - {m.version}))
      ensures errs == [] ==> m.version !in View().ledger
    {
      if m.direction != Down {
        return [InvalidMigrationType(m.direction)];
      }
      var t := View();
      if fails(ExistsQuery) || !t.history {
        return [DbError(ExistsQuery)];
      }
      if m.version !in t.ledger {
        return [];
      }
      errs := [];
      if fails(Script) {
        errs := errs + [DbError(Script)];
      }
      if fails(Delete) {
        errs := errs + [DbError(Delete)];
        return errs;
      }
      Store(t.(ledger := t.ledger - {m.version}));
    }

    /** `DoInTransaction`: when the transaction cannot begin the callback does not run.
        Otherwise the callback sees the committed tables through the transaction, its
        writes are committed only when it returns no error, a failed commit is ignored,
        and the handle is reset to the database on the way out. */
    method DoInTransaction(fn: Callback, fails: Failures) returns (err: Option<Error>)
      modifies this, db
      ensures fails(Begin) ==> err == Some(DbError(Begin)) && queriable == old(queriable) && db.tables == old(db.tables)
      ensures !fails(Begin) ==>
                && queriable == Direct
                && err == fn(old(db.tables)).1
                && db.tables == (if err.None? && !fails(Commit) then fn(old(db.tables)).0 else old(db.tables))
    {
      if fails(Begin) {
        return Some(DbError(Begin));
      }
      queriable := InTx(db.tables);
      var outcome := fn(View());
      Store(outcome.0);
      if outcome.1.Some? {
        queriable := Direct;
        return outcome.1;
      }
      if !fails(Commit) {
        db.tables := View();
      }
      queriable := Direct;
      return None;
    }

    /** `DoInLock`: takes the advisory lock (a failure is wrapped and the callback does
        not run), runs the callback while the lock is held, and releases the lock on the
        way out; a failed release panics. */
    method DoInLock(fn: Callback, fails: Failures) returns (exit: Exit)
      modifies this, db
      ensures fails(AdvisoryLock) ==>
                exit == Returned(Some(LockAcquireFailed(DbError(AdvisoryLock))))
                && queriable == old(queriable) && db.tables == old(db.tables)
      ensures !fails(AdvisoryLock) ==>
                var held := old(db.tables).(advisoryHeld := true);
                var seen := if old(queriable).Direct? then held else old(queriable).pending;
                && exit == (if fails(AdvisoryUnlock) then Panicked(LockReleaseFailed(DbError(AdvisoryUnlock)))
                            else Returned(fn(seen).1))
                && db.tables.advisoryHeld == fails(AdvisoryUnlock)
                && (old(queriable).Direct? ==>
                      queriable == Direct && db.tables == fn(held).0.(advisoryHeld := fails(AdvisoryUnlock)))
                && (old(queriable).InTx? ==>
                      queriable == InTx(fn(seen).0) && db.tables == held.(advisoryHeld := fails(AdvisoryUnlock)))
    {
      if fails(AdvisoryLock) {
        return Returned(Some(LockAcquireFailed(DbError(AdvisoryLock))));
      }
      db.tables := db.tables.(advisoryHeld := true);
      var outcome := fn(View());
      Store(outcome.0);
      if fails(AdvisoryUnlock) {
        db.tables := db.tables.(advisoryHeld := true);
        return Panicked(LockReleaseFailed(DbError(AdvisoryUnlock)));
      }
      db.tables := db.tables.(advisoryHeld := false);
      return Returned(outcome.1);
    }

    /** `Repair`: nothing without a table; otherwise each migration's row is checked and
        rewritten when needed, collecting one error per failed migration. */
    method Repair(ms: seq<Migration>, fails: Failures, now: nat) returns (errs: seq<Error>)
      requires forall i :: 0 <= i < |ms| ==> ms[i].checksum.Some?
      modifies this, db
      ensures fails(CheckTable) ==> errs == [DbError(CheckTable)] && WroteThrough(old(View()))
      ensures !fails(CheckTable) && !old(View()).history ==> errs == [] && WroteThrough(old(View()))
      ensures !fails(CheckTable) && old(View()).history ==>
                var r := RepairAll(old(View()).ledger, ms, fails, now);
                errs == r.1 && WroteThrough(old(View()).(ledger := r.0))
    {
      var present := CheckSchemaHistoryTable(fails);
      if present.Err? {
        return [present.error];
      }
      if !present.value {
        return [];
      }
      ghost var t := View();
      errs := [];
      for i := 0 to |ms|
        invariant View() == t.(ledger := RepairAll(t.ledger, ms[..i], fails, now).0)
        invariant errs == RepairAll(t.ledger, ms[..i], fails, now).1
        invariant WroteThrough(View())
      {
        RepairAllAt(t.ledger, ms, i, i + 1, fails, now);
        var m := ms[i];
        var l := View().ledger;
        if fails(RowQuery(i)) {
          errs := errs + [DbError(RowQuery(i))];
        } else if m.version !in l {
          if fails(RowWrite(i)) {
            errs := errs + [DbError(RowWrite(i))];
          } else {
            Store(View().(ledger := l[m.version := Row(m.description, m.checksum.value, true, now, Some(now))]));
          }
        } else if l[m.version].description != m.description || l[m.version].checksum != m.checksum.value {
          if fails(RowWrite(i)) {
            errs := errs + [DbError(RowWrite(i))];
          } else {
            var row := l[m.version].(description := m.description, checksum := m.checksum.value, repairedAt := Some(now));
            Store(View().(ledger := l[m.version := row]));
          }
        }
      }
      assert ms[..|ms|] == ms;
    }

    /** `GetFailingMigrations`: nothing without a table, otherwise exactly the rows
        whose script failed. */
    method GetFailingMigrations(fails: Failures) returns (r: Result<seq<Migration>>)
      ensures fails(CheckTable) ==> r == Err(DbError(CheckTable))
      ensures !fails(CheckTable) && !View().history ==> r == Ok([])
      ensures !fails(CheckTable) && View().history && fails(FailingQuery) ==> r == Err(DbError(FailingQuery))
      ensures !fails(CheckTable) && View().history && !fails(FailingQuery) ==>
                r == Ok(FailingRows(View().ledger))
    {
      var present := CheckSchemaHistoryTable(fails);
      if present.Err? {
        return Err(present.error);
      }
      if !present.value {
        return Ok([]);
      }
      if fails(FailingQuery) {
        return Err(DbError(FailingQuery));
      }
      return Ok(FailingRows(View().ledger));
    }
  }
}

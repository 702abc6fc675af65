/** The `schema_history` ledger both database backends keep, as abstract state, and the
    answers of the queries they run against it (core/database/postgres/postgres.go and
    core/database/cockroachdb/cockroach.go issue the same SQL for these). */
module Ledger {
  import opened Types

  /** A row of `schema_history`: description, MD5 checksum, whether the script succeeded,
      when it was executed and when it was last repaired. Times are clock readings. */
  datatype Row = Row(
    description: string,
    checksum: string,
    success: bool,
    executedAt: nat,
    repairedAt: Option<nat>)

  type History = map<uint16, Row>

  /** What the repositories can observe of a database: whether `schema_history` exists,
      its rows by version, whether CockroachDB's `schema_lock` marker table exists and
      whether the Postgres advisory lock is held by this session. */
  datatype Tables = Tables(
    history: bool,
    ledger: History,
    lockTable: bool,
    advisoryHeld: bool)

  /** `CREATE TABLE IF NOT EXISTS schema_history`: an existing table is left as it is. */
  function CreateIfAbsent(t: Tables): (r: Tables)
    ensures r.history
    ensures t.history ==> r == t
    ensures !t.history ==> r.ledger == map[] && r == t.(history := true, ledger := map[])
  {
    if t.history then t else t.(history := true, ledger := map[])
  }

  /** Creating the table twice is creating it once. */
  lemma CreateIdempotent(t: Tables)
    ensures CreateIfAbsent(CreateIfAbsent(t)) == CreateIfAbsent(t)
  {
  }

  /** The largest element of `s` below `n`, or 0 when there is none. */
  function MaxBelow(s: set<uint16>, n: nat): (r: uint16)
    requires n <= 0x1_0000
    ensures forall x :: x in s && x < n ==> x <= r
    ensures r == 0 || (r in s && r < n)
    decreases n
  {
    if n == 0 then 0
    else if n - 1 in s then n - 1
    else MaxBelow(s, n - 1)
  }

  /** The elements of `s` below `n`, ascending. */
  function SortedBelow(s: set<uint16>, n: nat): (r: seq<uint16>)
    requires n <= 0x1_0000
    ensures forall i, j :: 0 <= i < j < |r| ==> r[i] < r[j]
    ensures forall i :: 0 <= i < |r| ==> r[i] in s && r[i] < n
    ensures forall x :: x in s && x < n ==> x in r
    decreases n
  {
    if n == 0 then []
    else SortedBelow(s, n - 1) + (if n - 1 in s then [n - 1] else [])
  }

  /** `SELECT version FROM schema_history ORDER BY version ASC`: every version, failed
      rows included. */
  function Versions(l: History): (r: seq<uint16>)
    ensures forall i, j :: 0 <= i < j < |r| ==> r[i] < r[j]
    ensures forall i :: 0 <= i < |r| ==> r[i] in l
    ensures forall v :: v in l ==> v in r
  {
    SortedBelow(l.Keys, 0x1_0000)
  }

  /** `SELECT COALESCE(MAX(version), 0) FROM schema_history WHERE success = true`: the
      highest successfully executed version, or 0 when no row succeeded. */
  function LatestSuccess(l: History): (r: uint16)
    ensures forall v :: v in l && l[v].success ==> v <= r
    ensures r == 0 || (r in l && l[r].success)
  {
    var s := set v | v in l && l[v].success;
    assert forall v :: v in l && l[v].success ==> v in s && v < 0x1_0000;
    MaxBelow(s, 0x1_0000)
  }

  /** The gap check: the ledger's versions are walked in order with `expected` starting
      at 1; every version that is not the expected one reports the expected one as missing,
      and the expectation then moves to that version + 1 (with uint16 wrap-around). */
  function GapErrors(vs: seq<uint16>, expected: uint16): (errs: seq<Error>)
    ensures |errs| <= |vs|
    ensures forall i :: 0 <= i < |errs| ==> errs[i].MissingVersion?
    decreases |vs|
  {
    if vs == [] then []
    else
      (if vs[0] != expected then [MissingVersion(expected)] else [])
      + GapErrors(vs[1..], Succ16(vs[0]))
  }

  /** For an ascending list, there is no gap error exactly when the versions are
      `expected`, `expected` + 1, and so on. */
  lemma {:induction false} GapFreeIff(vs: seq<uint16>, expected: uint16)
    requires forall i, j :: 0 <= i < j < |vs| ==> vs[i] < vs[j]
    ensures GapErrors(vs, expected) == [] <==> forall i :: 0 <= i < |vs| ==> vs[i] == expected + i
    decreases |vs|
  {
    if vs != [] {
      var rest := vs[1..];
      if vs[0] == expected {
        if |vs| > 1 {
          assert vs[0] < vs[1];
          assert Succ16(vs[0]) == expected + 1;
        }
        GapFreeIff(rest, Succ16(vs[0]));
        if GapErrors(vs, expected) == [] {
          forall i | 0 <= i < |vs| ensures vs[i] == expected + i {
            if i > 0 {
              assert rest[i - 1] == vs[i];
            }
          }
        } else {
          assert GapErrors(rest, Succ16(vs[0])) != [];
          var k :| 0 <= k < |rest| && rest[k] != Succ16(vs[0]) + k;
          assert vs[k + 1] == rest[k];
        }
      } else {
        assert GapErrors(vs, expected)[0] == MissingVersion(expected);
      }
    }
  }

  /** The ledger has no gap exactly when its versions are 1, 2, ..., n. */
  lemma NoGapsIffOneToN(l: History)
    ensures GapErrors(Versions(l), 1) == [] <==> forall i :: 0 <= i < |Versions(l)| ==> Versions(l)[i] == i + 1
  {
    GapFreeIff(Versions(l), 1);
  }

  /** Only the first missing version of a gap is reported: versions [2, 5] report 1 and 3,
      not 4. */
  lemma GapReportsFirstMissing()
    ensures GapErrors([2, 5], 1) == [MissingVersion(1), MissingVersion(3)]
  {
  }

  /** Is the row's (version, description, checksum) among the local migrations? */
  predicate Known(v: uint16, row: Row, locals: seq<Migration>) {
    exists i :: 0 <= i < |locals| && locals[i].version == v
      && locals[i].description == row.description && locals[i].checksum == Some(row.checksum)
  }

  /** One `InvalidMigration` error per successful row of `vs` whose triple is not local. */
  function DriftOver(vs: seq<uint16>, l: History, locals: seq<Migration>): (errs: seq<Error>)
    requires forall i :: 0 <= i < |vs| ==> vs[i] in l
    ensures |errs| <= |vs|
    decreases |vs|
  {
    if vs == [] then []
    else
      var row := l[vs[0]];
      (if row.success && !Known(vs[0], row, locals)
       then [InvalidMigration(vs[0], row.description, row.checksum)] else [])
      + DriftOver(vs[1..], l, locals)
  }

  /** No error exactly when every successful row of `vs` is a local triple; every error
      names a successful row that is not. */
  lemma {:induction false} DriftOverSound(vs: seq<uint16>, l: History, locals: seq<Migration>)
    requires forall i :: 0 <= i < |vs| ==> vs[i] in l
    ensures var errs := DriftOver(vs, l, locals);
            && (errs == [] <==> forall i :: 0 <= i < |vs| && l[vs[i]].success ==> Known(vs[i], l[vs[i]], locals))
            && forall e :: e in errs ==>
                 && e.InvalidMigration? && e.version in l && l[e.version].success
                 && e.description == l[e.version].description && e.checksum == l[e.version].checksum
                 && !Known(e.version, l[e.version], locals)
    decreases |vs|
  {
    if vs != [] {
      DriftOverSound(vs[1..], l, locals);
      assert forall i :: 1 <= i < |vs| ==> vs[i] == vs[1..][i - 1];
    }
  }

  /** The drift check: `SELECT ... WHERE success = true AND (version, description,
      md5_checksum) NOT IN (local triples)`, rows taken in version order. */
  function DriftErrors(l: History, locals: seq<Migration>): (errs: seq<Error>)
    ensures |errs| <= |Versions(l)|
  {
    DriftOver(Versions(l), l, locals)
  }

  /** No drift error exactly when every successful row is one of the local migrations. */
  lemma NoDriftIff(l: History, locals: seq<Migration>)
    ensures DriftErrors(l, locals) == [] <==>
            forall v :: v in l && l[v].success ==> Known(v, l[v], locals)
  {
    var vs := Versions(l);
    DriftOverSound(vs, l, locals);
    if DriftErrors(l, locals) == [] {
      forall v | v in l && l[v].success ensures Known(v, l[v], locals) {
        var i :| 0 <= i < |vs| && vs[i] == v;
      }
    }
  }

  /** A migration built from the row of its version: that row's description and
      checksum, the zero type (UP) and no content. */
  predicate BuiltFromRow(m: Migration, l: History) {
    && m.version in l && m.direction == Up
    && m.description == l[m.version].description
    && m.checksum == Some(l[m.version].checksum) && m.content == ""
  }

  /** The rows with `success = false`, as the migrations `GetFailingMigrations` builds. */
  function FailingOver(vs: seq<uint16>, l: History): (r: seq<Migration>)
    requires forall i :: 0 <= i < |vs| ==> vs[i] in l
    ensures forall m :: m in r ==> m.version in vs && BuiltFromRow(m, l) && !l[m.version].success
    ensures forall i :: 0 <= i < |vs| && !l[vs[i]].success ==> exists m :: m in r && m.version == vs[i]
    decreases |vs|
  {
    if vs == [] then []
    else
      var row := l[vs[0]];
      var rest := FailingOver(vs[1..], l);
      assert forall i :: 1 <= i < |vs| ==> vs[i] == vs[1..][i - 1];
      (if !row.success then [Migration(vs[0], row.description, Up, Some(row.checksum), "")] else [])
      + rest
  }

  /** The migrations' versions are strictly ascending. */
  predicate AscendingVersions(ms: seq<Migration>) {
    forall i, j :: 0 <= i < j < |ms| ==> ms[i].version < ms[j].version
  }

  /** Over ascending versions, the failing rows come out ascending, so none repeats. */
  lemma {:induction false} FailingOverAscending(vs: seq<uint16>, l: History)
    requires forall i :: 0 <= i < |vs| ==> vs[i] in l
    requires forall i, j :: 0 <= i < j < |vs| ==> vs[i] < vs[j]
    ensures AscendingVersions(FailingOver(vs, l))
    decreases |vs|
  {
    if vs != [] {
      var x := vs[0];
      var tail := vs[1..];
      var rest := FailingOver(tail, l);
      FailingOverAscending(tail, l);
      assert forall i :: 0 <= i < |tail| ==> tail[i] == vs[i + 1];
      var head := if !l[x].success then [Migration(x, l[x].description, Up, Some(l[x].checksum), "")] else [];
      assert FailingOver(vs, l) == head + rest;
      AscendingCons(x, head, rest);
    }
  }

  lemma AscendingCons(x: uint16, head: seq<Migration>, rest: seq<Migration>)
    requires head == [] || (|head| == 1 && head[0].version == x)
    requires forall m :: m in rest ==> x < m.version
    requires AscendingVersions(rest)
    ensures AscendingVersions(head + rest)
  {
    forall i, j | 0 <= i < j < |head + rest|
      ensures (head + rest)[i].version < (head + rest)[j].version
    {
      if i < |head| {
        assert (head + rest)[j] == rest[j - |head|];
      } else {
        assert (head + rest)[i] == rest[i - |head|] && (head + rest)[j] == rest[j - |head|];
      }
    }
  }

  /** Exactly the failing rows, each built from its row, in ascending version order and so
      without repetition. */
  function FailingRows(l: History): (r: seq<Migration>)
    ensures forall m :: m in r ==> BuiltFromRow(m, l) && !l[m.version].success
    ensures forall v :: v in l && !l[v].success ==> exists m :: m in r && m.version == v
    ensures AscendingVersions(r)
  {
    var vs := Versions(l);
    FailingOverAscending(vs, l);
    FailingOver(vs, l)
  }

  /** The upsert `ExecuteMigration` writes: `INSERT ... ON CONFLICT (version) DO UPDATE`
      with the migration's description and checksum, the given success flag and the
      execution time; an existing row keeps its `repaired_at`. */
  function Upsert(l: History, v: uint16, description: string, checksum: string, success: bool, now: nat): (r: History)
    ensures r.Keys == l.Keys + {v}
    ensures r[v].description == description && r[v].checksum == checksum
    ensures r[v].success == success && r[v].executedAt == now
    ensures r[v].repairedAt == (if v in l then l[v].repairedAt else None)
    ensures forall w :: w in l && w != v ==> r[w] == l[w]
  {
    l[v := Row(description, checksum, success, now, if v in l then l[v].repairedAt else None)]
  }

  /** Executing the same migration twice leaves one row, not two: the versions are the
      old ones plus that version, and the row is the second execution's. */
  lemma UpsertNoDuplicate(l: History, v: uint16, d: string, c: string, s1: bool, s2: bool, t1: nat, t2: nat)
    ensures var twice := Upsert(Upsert(l, v, d, c, s1, t1), v, d, c, s2, t2);
            && twice.Keys == l.Keys + {v}
            && |twice| == |Upsert(l, v, d, c, s1, t1)|
            && twice[v] == Row(d, c, s2, t2, if v in l then l[v].repairedAt else None)
  {
  }

  /** The row a repair writes for a migration with the given description and checksum:
      a missing row is inserted as successful and repaired now; an existing row takes the
      local description and checksum, is stamped only if one of them differed, and keeps
      its `success` and `executed_at`. */
  function RepairedRow(l: History, v: uint16, description: string, checksum: string, now: nat): (r: Row)
    ensures r.description == description && r.checksum == checksum
    ensures v !in l ==> r.success && r.repairedAt == Some(now) && r.executedAt == now
    ensures v in l ==> r.success == l[v].success && r.executedAt == l[v].executedAt
    ensures v in l && l[v].description == description && l[v].checksum == checksum ==> r == l[v]
    ensures v in l && (l[v].description != description || l[v].checksum != checksum) ==> r.repairedAt == Some(now)
  {
    if v !in l then Row(description, checksum, true, now, Some(now))
    else if l[v].description != description || l[v].checksum != checksum then
      l[v].(description := description, checksum := checksum, repairedAt := Some(now))
    else l[v]
  }

  /** Elements above every member of `s` add nothing. */
  lemma {:induction false} SortedBelowStable(s: set<uint16>, m: nat, n: nat)
    requires m <= n <= 0x1_0000
    requires forall x :: x in s ==> x < m
    ensures SortedBelow(s, n) == SortedBelow(s, m)
    decreases n
  {
    if n > m {
      SortedBelowStable(s, m, n - 1);
    }
  }

  /** A ledger holding 1 and 5 as successful and 7 as failed reports 5 as the latest. */
  lemma LatestSuccessExample()
    ensures LatestSuccess(map[
              1 := Row("t", "c", true, 0, None),
              5 := Row("t", "c", true, 0, None),
              7 := Row("t", "c", false, 0, None)]) == 5
  {
    var l := map[
      1 := Row("t", "c", true, 0, None),
      5 := Row("t", "c", true, 0, None),
      7 := Row("t", "c", false, 0, None)];
    var r := LatestSuccess(l);
    assert 5 in l && l[5].success;
    assert r == 0 || r == 1 || r == 5 || r == 7;
  }

  lemma VersionsOfTwo(l: History)
    requires l.Keys == {2}
    ensures Versions(l) == [2]
  {
    SortedBelowStable(l.Keys, 3, 0x1_0000);
  }

  lemma SortedOneTwo(s: set<uint16>)
    requires s == {1, 2}
    ensures SortedBelow(s, 3) == [1, 2]
  {
    assert SortedBelow(s, 1) == [];
    assert SortedBelow(s, 2) == [1];
  }

  lemma VersionsOfOneTwo(l: History)
    requires l.Keys == {1, 2}
    ensures Versions(l) == [1, 2]
  {
    SortedBelowStable(l.Keys, 3, 0x1_0000);
    SortedOneTwo(l.Keys);
  }

  /** The local migrations 1 and 2 of the examples that follow. */
  function ExampleLocals(): seq<Migration> {
    [Migration(1, "a", Up, Some("c1"), ""), Migration(2, "b", Up, Some("c2"), "")]
  }

  /** Local migrations 1 and 2 against a ledger holding only 2: one gap error, no drift. */
  lemma ValidationExampleGap()
    ensures var l := map[2 := Row("b", "c2", true, 0, None)];
            GapErrors(Versions(l), 1) + DriftErrors(l, ExampleLocals()) == [MissingVersion(1)]
  {
    var l := map[2 := Row("b", "c2", true, 0, None)];
    VersionsOfTwo(l);
    assert Known(2, l[2], ExampleLocals()) by { assert ExampleLocals()[1].version == 2; }
  }

  /** Once 1 is recorded too, neither gaps nor drift. */
  lemma ValidationExampleClean()
    ensures var l := map[1 := Row("a", "c1", true, 0, None), 2 := Row("b", "c2", true, 0, None)];
            GapErrors(Versions(l), 1) + DriftErrors(l, ExampleLocals()) == []
  {
    var l := map[1 := Row("a", "c1", true, 0, None), 2 := Row("b", "c2", true, 0, None)];
    VersionsOfOneTwo(l);
    assert Known(1, l[1], ExampleLocals()) by { assert ExampleLocals()[0].version == 1; }
    assert Known(2, l[2], ExampleLocals()) by { assert ExampleLocals()[1].version == 2; }
  }

  function DriftedLedger(): History {
    map[1 := Row("a", "c1", true, 0, None), 2 := Row("b", "c1", true, 0, None)]
  }

  lemma DriftedRows()
    ensures DriftOver([1, 2], DriftedLedger(), ExampleLocals()) == [InvalidMigration(2, "b", "c1")]
  {
    var l := DriftedLedger();
    var locals := ExampleLocals();
    assert Known(1, l[1], locals) by { assert locals[0].version == 1; }
    assert !Known(2, l[2], locals) by {
      assert locals[0].version != 2;
      assert locals[1].checksum != Some(l[2].checksum);
    }
    assert DriftOver([2], l, locals) == [InvalidMigration(2, "b", "c1")];
    assert [1, 2][1..] == [2];
  }

  /** Once 2's checksum differs from the local one, one drift error. */
  lemma ValidationExampleDrift()
    ensures GapErrors(Versions(DriftedLedger()), 1) + DriftErrors(DriftedLedger(), ExampleLocals())
            == [InvalidMigration(2, "b", "c1")]
  {
    VersionsOfOneTwo(DriftedLedger());
    DriftedRows();
    assert GapErrors([1, 2], 1) == [];
  }

  /** The gap loop over the ascending ledger versions. */
  method GapCheck(vs: seq<uint16>) returns (errs: seq<Error>)
    ensures errs == GapErrors(vs, 1)
  {
    errs := [];
    var expected: uint16 := 1;
    assert vs[0..] == vs;
    for i := 0 to |vs|
      invariant errs + GapErrors(vs[i..], expected) == GapErrors(vs, 1)
    {
      assert vs[i..][1..] == vs[i + 1..];
      if expected != vs[i] {
        errs := errs + [MissingVersion(expected)];
      }
      expected := Succ16(vs[i]);
    }
  }

  /** The loop over the rows the drift query returns. */
  method DriftCheck(vs: seq<uint16>, l: History, ms: seq<Migration>) returns (errs: seq<Error>)
    requires forall i :: 0 <= i < |vs| ==> vs[i] in l
    ensures errs == DriftOver(vs, l, ms)
  {
    errs := [];
    assert vs[0..] == vs;
    for i := 0 to |vs|
      invariant errs + DriftOver(vs[i..], l, ms) == DriftOver(vs, l, ms)
    {
      DriftOverStep(vs, l, ms, i);
      ghost var rest := DriftOver(vs[i + 1..], l, ms);
      var row := l[vs[i]];
      if row.success && !Known(vs[i], row, ms) {
        var e := InvalidMigration(vs[i], row.description, row.checksum);
        assert errs + ([e] + rest) == (errs + [e]) + rest;
        errs := errs + [e];
      } else {
        assert [] + rest == rest;
      }
    }
  }

  lemma DriftOverStep(vs: seq<uint16>, l: History, ms: seq<Migration>, i: nat)
    requires forall i :: 0 <= i < |vs| ==> vs[i] in l
    requires i < |vs|
    ensures DriftOver(vs[i..], l, ms)
         == (if l[vs[i]].success && !Known(vs[i], l[vs[i]], ms)
             then [InvalidMigration(vs[i], l[vs[i]].description, l[vs[i]].checksum)] else [])
            + DriftOver(vs[i + 1..], l, ms)
  {
    assert vs[i..][1..] == vs[i + 1..];
  }
}

/** The local contiguity check of the loaded UP migrations
    (internal/migrations/migration.go). */
module Migrations {
  import opened Types

  /** Errors of the contiguity check over `ms`, where the first element must carry the
      version `expected` and every later one the successor (with 16-bit wrap-around) of
      the version before it. */
  function ContiguityErrors(ms: seq<Migration>, expected: uint16): (errs: seq<Error>)
    ensures |errs| <= |ms|
    ensures ms == [] ==> errs == []
    decreases |ms|
  {
    if ms == [] then []
    else
      (if ms[0].version != expected then [UnexpectedVersion(expected, ms[0].version)] else [])
      + ContiguityErrors(ms[1..], Succ16(ms[0].version))
  }

  /** The version the contiguity check expects at position i when it starts expecting
      `first`: versions run on from `first` with 16-bit wrap-around. */
  function ExpectedAt(first: uint16, i: nat): uint16 {
    (first + i) % 0x1_0000
  }

  /** `ValidateMigrations`: one error per migration whose version is not the one expected;
      the expectation starts at 1 and then follows the version actually seen. */
  method ValidateMigrations(ms: seq<Migration>) returns (errs: seq<Error>)
    ensures errs == ContiguityErrors(ms, 1)
  {
    errs := [];
    var expected: uint16 := 1;
    for i := 0 to |ms|
      invariant errs + ContiguityErrors(ms[i..], expected) == ContiguityErrors(ms, 1)
    {
      var j := i + 1;
      ghost var rest := ContiguityErrors(ms[j..], Succ16(ms[i].version));
      ErrorsAt(ms, i, j, expected);
      if ms[i].version != expected {
        var e := UnexpectedVersion(expected, ms[i].version);
        assert errs + ([e] + rest) == (errs + [e]) + rest;
        errs := errs + [e];
      } else {
        assert [] + rest == rest;
      }
      expected := Succ16(ms[i].version);
    }
    assert ms[|ms|..] == [];
  }

  /** One step of the check, at position i. */
  lemma ErrorsAt(ms: seq<Migration>, i: nat, j: nat, expected: uint16)
    requires i < |ms| && j == i + 1
    ensures ContiguityErrors(ms[i..], expected)
         == (if ms[i].version != expected then [UnexpectedVersion(expected, ms[i].version)] else [])
            + ContiguityErrors(ms[j..], Succ16(ms[i].version))
  {
    assert ms[i..][1..] == ms[j..];
  }

  /** The check passes exactly when the versions run on from the expected one, position
      by position. */
  lemma {:induction false} NoErrorsIffRun(ms: seq<Migration>, expected: uint16)
    ensures ContiguityErrors(ms, expected) == []
        <==> forall i :: 0 <= i < |ms| ==> ms[i].version == ExpectedAt(expected, i)
    decreases |ms|
  {
    if ms != [] {
      NoErrorsIffRun(ms[1..], Succ16(ms[0].version));
      var tail := ContiguityErrors(ms[1..], Succ16(ms[0].version));
      if ms[0].version == expected {
        forall i | 0 <= i < |ms| - 1
          ensures ExpectedAt(Succ16(ms[0].version), i) == ExpectedAt(expected, i + 1)
        {
        }
        if tail == [] {
          forall i | 0 <= i < |ms| ensures ms[i].version == ExpectedAt(expected, i) {
            if i > 0 { assert ms[i].version == ms[1..][i - 1].version; }
          }
        } else {
          var k :| 0 <= k < |ms| - 1 && ms[1..][k].version != ExpectedAt(Succ16(ms[0].version), k);
          assert ms[k + 1].version != ExpectedAt(expected, k + 1);
        }
      } else {
        assert ms[0].version != ExpectedAt(expected, 0);
      }
    }
  }

  /** With fewer than 2^16 migrations, the local check passes exactly when the versions
      are 1, 2, ..., n in order. */
  lemma ValidIffOneToN(ms: seq<Migration>)
    requires |ms| < 0x1_0000
    ensures ContiguityErrors(ms, 1) == [] <==> forall i :: 0 <= i < |ms| ==> ms[i].version == i + 1
  {
    NoErrorsIffRun(ms, 1);
    if ContiguityErrors(ms, 1) == [] {
      forall i | 0 <= i < |ms| ensures ms[i].version == i + 1 {
        ExpectedFromOne(i);
      }
    } else {
      var i :| 0 <= i < |ms| && ms[i].version != ExpectedAt(1, i);
      ExpectedFromOne(i);
    }
  }

  lemma ExpectedFromOne(i: nat)
    requires i < 0xFFFF
    ensures ExpectedAt(1, i) == i + 1
  {
  }

  /** The errors over a concatenation: the check resynchronises on the last version of the
      first part, so a gap in one part never produces errors in the other. */
  lemma {:induction false} ErrorsSplit(ms: seq<Migration>, expected: uint16, k: nat)
    requires 0 < k <= |ms|
    ensures ContiguityErrors(ms, expected)
         == ContiguityErrors(ms[..k], expected) + ContiguityErrors(ms[k..], Succ16(ms[k - 1].version))
    decreases k
  {
    var head := if ms[0].version != expected then [UnexpectedVersion(expected, ms[0].version)] else [];
    var next := Succ16(ms[0].version);
    var rest := ms[1..];
    var m := k - 1;
    var last := Succ16(ms[k - 1].version);
    ErrorsAt(ms, 0, 1, expected);
    ErrorsAt(ms[..k], 0, 1, expected);
    assert ms[..k][1..] == rest[..m];
    var a := ContiguityErrors(rest[..m], next);
    var b := ContiguityErrors(ms[k..], last);
    if m > 0 {
      ErrorsSplit(rest, next, m);
      assert rest[m..] == ms[k..] && rest[m - 1] == ms[k - 1];
    } else {
      assert rest[..m] == [] && rest == ms[k..];
    }
    Regroup(head, a, b);
  }

  lemma Regroup(head: seq<Error>, a: seq<Error>, b: seq<Error>)
    ensures head + (a + b) == (head + a) + b
  {
  }

  /** A single gap inside otherwise consecutive versions gives exactly one error, naming
      the version that was expected and the one found: [1, 3, 4] yields one
      "expected version 2 got 3". */
  lemma SingleGap(ms: seq<Migration>, k: nat)
    requires 0 < k < |ms|
    requires ContiguityErrors(ms[..k], 1) == []
    requires ms[k].version != Succ16(ms[k - 1].version)
    requires ContiguityErrors(ms[k + 1..], Succ16(ms[k].version)) == []
    ensures ContiguityErrors(ms, 1) == [UnexpectedVersion(Succ16(ms[k - 1].version), ms[k].version)]
  {
    ErrorsSplit(ms, 1, k);
    assert ms[k..][1..] == ms[k + 1..];
  }

  /** A repeated version is reported once and the check carries on from it: [1, 1]
      yields one "expected version 2 got 1". */
  lemma RepeatedVersion(a: Migration, b: Migration)
    requires a.version == 1 && b.version == 1
    ensures ContiguityErrors([a, b], 1) == [UnexpectedVersion(2, 1)]
  {
    assert [a, b][1..] == [b];
    assert [b][1..] == [];
  }
}

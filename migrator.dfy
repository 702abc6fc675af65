/** The orchestrator (core/migrator/migrator.go): `Migrate` over an abstract repository.
    What it does is observable as the steps it asks the repository to perform, in order,
    the errors it returns, and the destination it writes back into its configuration. */
module Migrator {
  import opened Types
  import Migrations

  /** One request to the repository that runs a script. */
  datatype Step = HookStep(hook: Hook) | ExecStep(migration: Migration) | RollbackStep(migration: Migration)

  /** The repository as the orchestrator sees it (core/database/repository.go): what each
      call answers. The lock, the table check, the latest version, the ledger validation and
      the start and the commit of the transaction are answered once; a script's outcome may depend on the
      steps issued before it. */
  datatype Repository = Repository(
    acquire: Option<Error>,
    release: Option<Error>,
    assertTable: Option<Error>,
    latest: Result<uint16>,
    validate: seq<Migration> -> seq<Error>,
    begin: Option<Error>,
    commit: Option<Error>,
    executeHook: (seq<Step>, Hook) -> Option<Error>,
    executeMigration: (seq<Step>, Migration) -> seq<Error>,
    rollbackMigration: (seq<Step>, Migration) -> seq<Error>)

  /** What `LoadObjectsFromFiles` hands over: the sorted UP and DOWN migrations, the hooks by
      kind, and the errors met while loading. */
  datatype Loaded = Loaded(ups: seq<Migration>, downs: seq<Migration>, hooks: map<HookKind, seq<Hook>>, errs: seq<Error>)

  /** `hooks[k]`: a kind with no entry has no hooks. */
  function HooksOf(hooks: map<HookKind, seq<Hook>>, k: HookKind): seq<Hook> {
    if k in hooks then hooks[k] else []
  }

  /** The errors the repository reports for one step issued after `trace`. */
  function StepErrors(repo: Repository, trace: seq<Step>, s: Step): seq<Error> {
    match s
      case HookStep(h) => (match repo.executeHook(trace, h) case None => [] case Some(e) => [e])
      case ExecStep(m) => repo.executeMigration(trace, m)
      case RollbackStep(m) => repo.rollbackMigration(trace, m)
  }

  /** The steps issued so far and the errors collected so far. */
  datatype Progress = Progress(trace: seq<Step>, errs: seq<Error>)

  /** Without `force`, the first error ends the run. */
  predicate Stopped(force: bool, p: Progress) {
    !force && p.errs != []
  }

  function Issue(repo: Repository, p: Progress, s: Step): Progress {
    Progress(p.trace + [s], p.errs + StepErrors(repo, p.trace, s))
  }

  /** Issuing a list of steps in order, stopping after the first failing one unless
      `force` is set: the rule every loop of the orchestrator follows. */
  function Run(repo: Repository, force: bool, p: Progress, steps: seq<Step>): Progress
    decreases |steps|
  {
    if steps == [] || Stopped(force, p) then p
    else Run(repo, force, Issue(repo, p, steps[0]), steps[1..])
  }

  /** A caller appending the errors of a callee that started with none. */
  function Merge(p: Progress, q: Progress): Progress {
    Progress(q.trace, p.errs + q.errs)
  }

  lemma {:induction false} RunAppend(repo: Repository, force: bool, p: Progress, a: seq<Step>, b: seq<Step>)
    ensures Run(repo, force, p, a + b) == Run(repo, force, Run(repo, force, p, a), b)
    decreases |a|
  {
    if a == [] {
      assert a + b == b;
    } else if !Stopped(force, p) {
      assert (a + b)[0] == a[0];
      assert (a + b)[1..] == a[1..] + b;
      RunAppend(repo, force, Issue(repo, p, a[0]), a[1..], b);
    }
  }

  /** A run that has not stopped behaves as a fresh run whose errors are appended. */
  lemma {:induction false} RunShift(repo: Repository, force: bool, p: Progress, steps: seq<Step>)
    requires !Stopped(force, p)
    ensures Run(repo, force, p, steps) == Merge(p, Run(repo, force, Progress(p.trace, []), steps))
    decreases |steps|
  {
    if p.errs == [] {
      assert p == Progress(p.trace, []);
      assert [] + Run(repo, force, p, steps).errs == Run(repo, force, p, steps).errs;
    } else if steps != [] {
      var s := steps[0];
      var blank := Progress(p.trace, []);
      RunShift(repo, force, Issue(repo, p, s), steps[1..]);
      RunShift(repo, force, Issue(repo, blank, s), steps[1..]);
      var e := StepErrors(repo, p.trace, s);
      var rest := Run(repo, force, Progress(p.trace + [s], []), steps[1..]);
      assert p.errs + e + rest.errs == p.errs + (([] + e) + rest.errs);
    }
  }

  /** Issuing one more step. */
  lemma RunCons(repo: Repository, force: bool, p: Progress, s: Step, rest: seq<Step>)
    requires !Stopped(force, p)
    ensures Run(repo, force, p, [s] + rest) == Run(repo, force, Issue(repo, p, s), rest)
  {
    assert ([s] + rest)[0] == s && ([s] + rest)[1..] == rest;
  }

  /** A group run by a callee, whose errors its caller then appends, takes the place of
      issuing the group's steps one by one. */
  lemma ConsumeGroup(repo: Repository, force: bool, p: Progress, use: bool, g: seq<Step>, next: seq<Step>)
    requires !Stopped(force, p)
    ensures Run(repo, force, p, Group(use, g, next))
         == if use then Run(repo, force, Merge(p, Run(repo, force, Progress(p.trace, []), g)), next)
            else Run(repo, force, p, next)
  {
    if use {
      RunAppend(repo, force, p, g, next);
      RunShift(repo, force, p, g);
    }
  }

  /** No step fails, each issued after the ones before it. */
  predicate Clean(repo: Repository, trace: seq<Step>, steps: seq<Step>) {
    forall i :: 0 <= i < |steps| ==> StepErrors(repo, trace + steps[..i], steps[i]) == []
  }

  lemma CleanCons(repo: Repository, trace: seq<Step>, steps: seq<Step>)
    requires steps != []
    ensures Clean(repo, trace, steps)
        <==> StepErrors(repo, trace, steps[0]) == [] && Clean(repo, trace + [steps[0]], steps[1..])
  {
    var s := steps[0];
    assert trace + steps[..0] == trace;
    if Clean(repo, trace, steps) {
      forall i | 0 <= i < |steps| - 1
        ensures StepErrors(repo, (trace + [s]) + steps[1..][..i], steps[1..][i]) == []
      {
        assert steps[..i + 1] == [s] + steps[1..][..i];
        assert trace + steps[..i + 1] == (trace + [s]) + steps[1..][..i];
        assert StepErrors(repo, trace + steps[..i + 1], steps[i + 1]) == [];
      }
    }
    if StepErrors(repo, trace, s) == [] && Clean(repo, trace + [s], steps[1..]) {
      forall i | 1 <= i < |steps|
        ensures StepErrors(repo, trace + steps[..i], steps[i]) == []
      {
        assert steps[..i] == [s] + steps[1..][..i - 1];
        assert trace + steps[..i] == (trace + [s]) + steps[1..][..i - 1];
        assert StepErrors(repo, (trace + [s]) + steps[1..][..i - 1], steps[1..][i - 1]) == [];
      }
    }
  }

  /** A run reports no error exactly when none of its steps fails, and it then issues every
      step. */
  lemma {:induction false} RunClean(repo: Repository, force: bool, trace: seq<Step>, steps: seq<Step>)
    ensures var r := Run(repo, force, Progress(trace, []), steps);
            && (r.errs == [] <==> Clean(repo, trace, steps))
            && (r.errs == [] ==> r.trace == trace + steps)
    decreases |steps|
  {
    if steps == [] {
      assert trace + steps == trace;
    } else {
      var s := steps[0];
      var e := StepErrors(repo, trace, s);
      var first := Issue(repo, Progress(trace, []), s);
      CleanCons(repo, trace, steps);
      if e == [] {
        RunClean(repo, force, trace + [s], steps[1..]);
        assert first == Progress(trace + [s], []);
        assert (trace + [s]) + steps[1..] == trace + steps;
      } else if force {
        RunShift(repo, force, first, steps[1..]);
      }
    }
  }

  /** Without `force`, the first failing step ends the run with its errors alone. */
  lemma {:induction false} RunStopsAtFirstFailure(repo: Repository, trace: seq<Step>, steps: seq<Step>, k: nat)
    requires k < |steps|
    requires Clean(repo, trace, steps[..k])
    requires StepErrors(repo, trace + steps[..k], steps[k]) != []
    ensures Run(repo, false, Progress(trace, []), steps)
         == Progress(trace + steps[..k + 1], StepErrors(repo, trace + steps[..k], steps[k]))
    decreases k
  {
    var s := steps[0];
    if k == 0 {
      assert steps[..1] == [s];
      assert trace + steps[..0] == trace;
    } else {
      CleanCons(repo, trace, steps[..k]);
      assert steps[..k][0] == s;
      assert steps[..k][1..] == steps[1..][..k - 1];
      assert trace + steps[..k] == (trace + [s]) + steps[1..][..k - 1];
      assert steps[..k + 1] == [s] + steps[1..][..k];
      assert trace + steps[..k + 1] == (trace + [s]) + steps[1..][..k];
      assert steps[k] == steps[1..][k - 1];
      assert Issue(repo, Progress(trace, []), s) == Progress(trace + [s], []);
      RunStopsAtFirstFailure(repo, trace + [s], steps[1..], k - 1);
    }
  }

  /** Every error of every step, in order. */
  function AllErrors(repo: Repository, trace: seq<Step>, steps: seq<Step>): seq<Error>
    decreases |steps|
  {
    if steps == [] then []
    else StepErrors(repo, trace, steps[0]) + AllErrors(repo, trace + [steps[0]], steps[1..])
  }

  /** With `force`, every step is issued and every error is returned, in order. */
  lemma {:induction false} RunForced(repo: Repository, trace: seq<Step>, steps: seq<Step>)
    ensures Run(repo, true, Progress(trace, []), steps) == Progress(trace + steps, AllErrors(repo, trace, steps))
    decreases |steps|
  {
    if steps != [] {
      var s := steps[0];
      RunShift(repo, true, Issue(repo, Progress(trace, []), s), steps[1..]);
      RunForced(repo, trace + [s], steps[1..]);
      assert (trace + [s]) + steps[1..] == trace + steps;
    }
  }

  /** What a run issues is a prefix of the steps it was given. */
  lemma {:induction false} RunIssuesPrefix(repo: Repository, force: bool, p: Progress, steps: seq<Step>)
    ensures exists k :: 0 <= k <= |steps| && Run(repo, force, p, steps).trace == p.trace + steps[..k]
    decreases |steps|
  {
    if steps == [] || Stopped(force, p) {
      assert p.trace + steps[..0] == p.trace;
    } else {
      var s := steps[0];
      RunIssuesPrefix(repo, force, Issue(repo, p, s), steps[1..]);
      var k :| 0 <= k <= |steps| - 1 && Run(repo, force, Issue(repo, p, s), steps[1..]).trace == p.trace + [s] + steps[1..][..k];
      assert steps[..k + 1] == [s] + steps[1..][..k];
    }
  }

  // ---- The plans: which steps `migrateUp` and `migrateDown` issue, in which order ----

  function HookSteps(hs: seq<Hook>): (r: seq<Step>)
    ensures |r| == |hs| && forall i :: 0 <= i < |hs| ==> r[i] == HookStep(hs[i])
    decreases |hs|
  {
    if hs == [] then [] else [HookStep(hs[0])] + HookSteps(hs[1..])
  }

  /** The hooks `executeVersionedHooks` runs for `version`: exactly those of that version,
      in list order. */
  function VersionedSteps(version: uint16, hs: seq<Hook>): seq<Step>
    decreases |hs|
  {
    if hs == [] then []
    else (if hs[0].version == version then [HookStep(hs[0])] else []) + VersionedSteps(version, hs[1..])
  }

  /** `executeVersionedHooks` issues a hook exactly when it carries the version. */
  lemma {:induction false} VersionedExactly(version: uint16, hs: seq<Hook>)
    ensures forall s :: s in VersionedSteps(version, hs) ==> s.HookStep? && s.hook in hs && s.hook.version == version
    ensures forall h :: h in hs && h.version == version ==> HookStep(h) in VersionedSteps(version, hs)
    decreases |hs|
  {
    if hs != [] {
      VersionedExactly(version, hs[1..]);
      var head := if hs[0].version == version then [HookStep(hs[0])] else [];
      assert VersionedSteps(version, hs) == head + VersionedSteps(version, hs[1..]);
      forall h | h in hs && h.version == version
        ensures HookStep(h) in VersionedSteps(version, hs)
      {
        if h != hs[0] {
          assert h in hs[1..];
        }
      }
    }
  }

  /** A group of steps that runs only when its flag is set, followed by `next`. */
  function Group(use: bool, g: seq<Step>, next: seq<Step>): seq<Step> {
    if use then g + next else next
  }

  /** The steps for one UP migration inside the range, followed by `next`: BeforeEach,
      BeforeVersion, the migration, AfterVersion, AfterEach, and Repeatable only below the
      destination. */
  function UpSteps(c: MigrationConfig, hooks: map<HookKind, seq<Hook>>, m: Migration, to: uint16, next: seq<Step>): seq<Step> {
    Group(c.useBeforeEach, HookSteps(HooksOf(hooks, BeforeEach)),
    Group(c.useBeforeVersion, VersionedSteps(m.version, HooksOf(hooks, BeforeVersion)),
    [ExecStep(m)] +
    Group(c.useAfterVersion, VersionedSteps(m.version, HooksOf(hooks, AfterVersion)),
    Group(c.useAfterEach, HookSteps(HooksOf(hooks, AfterEach)),
    Group(c.useRepeatable && m.version < to, HookSteps(HooksOf(hooks, Repeatable)),
    next)))))
  }

  /** The steps for the UP migrations `ms` whose version lies in [from, to], followed by
      `next`. */
  function UpBody(c: MigrationConfig, hooks: map<HookKind, seq<Hook>>, ms: seq<Migration>, from: uint16, to: uint16, next: seq<Step>): seq<Step>
    decreases |ms|
  {
    if ms == [] then next
    else if ms[0].version < from || ms[0].version > to then UpBody(c, hooks, ms[1..], from, to, next)
    else UpSteps(c, hooks, ms[0], to, UpBody(c, hooks, ms[1..], from, to, next))
  }

  /** `migrateUp`'s steps: Before once, every migration in range, After once. */
  function UpPlan(c: MigrationConfig, hooks: map<HookKind, seq<Hook>>, ups: seq<Migration>, from: uint16, to: uint16): seq<Step> {
    Group(c.useBefore, HookSteps(HooksOf(hooks, Before)),
    UpBody(c, hooks, ups, from, to,
    Group(c.useAfter, HookSteps(HooksOf(hooks, After)), [])))
  }

  /** `migrateDown`'s steps: every DOWN migration with version in [to, from], each followed by
      the RepeatableDown hooks when it lies above the destination. */
  function DownPlan(c: MigrationConfig, hooks: map<HookKind, seq<Hook>>, downs: seq<Migration>, from: uint16, to: uint16): seq<Step>
    decreases |downs|
  {
    if downs == [] then []
    else if from < downs[0].version || to > downs[0].version then DownPlan(c, hooks, downs[1..], from, to)
    else [RollbackStep(downs[0])]
         + Group(c.useRepeatable && downs[0].version > to, HookSteps(HooksOf(hooks, RepeatableDown)),
                 DownPlan(c, hooks, downs[1..], from, to))
  }

  /** The migrations of `ms` whose version lies in [lo, hi], in order. */
  function Between(ms: seq<Migration>, lo: uint16, hi: uint16): (r: seq<Migration>)
    ensures forall m :: m in r ==> m in ms && lo <= m.version <= hi
    decreases |ms|
  {
    if ms == [] then []
    else (if lo <= ms[0].version <= hi then [ms[0]] else []) + Between(ms[1..], lo, hi)
  }

  /** The migrations the steps execute, in order. */
  function Executed(steps: seq<Step>): seq<Migration>
    decreases |steps|
  {
    if steps == [] then []
    else (if steps[0].ExecStep? then [steps[0].migration] else []) + Executed(steps[1..])
  }

  /** The migrations the steps roll back, in order. */
  function RolledBack(steps: seq<Step>): seq<Migration>
    decreases |steps|
  {
    if steps == [] then []
    else (if steps[0].RollbackStep? then [steps[0].migration] else []) + RolledBack(steps[1..])
  }

  predicate HooksOnly(steps: seq<Step>) {
    forall i :: 0 <= i < |steps| ==> steps[i].HookStep?
  }

  /** Hook steps in front of `next` execute and roll back nothing. */
  lemma {:induction false} SkipHooks(g: seq<Step>, next: seq<Step>)
    requires HooksOnly(g)
    ensures Executed(g + next) == Executed(next) && RolledBack(g + next) == RolledBack(next)
    decreases |g|
  {
    if g != [] {
      assert g[0].HookStep?;
      assert (g + next)[0] == g[0];
      assert (g + next)[1..] == g[1..] + next;
      assert HooksOnly(g[1..]) by {
        forall i | 0 <= i < |g| - 1
          ensures g[1..][i].HookStep?
        {
          assert g[1..][i] == g[i + 1];
        }
      }
      SkipHooks(g[1..], next);
      assert [] + Executed(g[1..] + next) == Executed(g[1..] + next);
      assert [] + RolledBack(g[1..] + next) == RolledBack(g[1..] + next);
    } else {
      assert g + next == next;
    }
  }

  lemma SkipGroup(use: bool, g: seq<Step>, next: seq<Step>)
    requires HooksOnly(g)
    ensures Executed(Group(use, g, next)) == Executed(next) && RolledBack(Group(use, g, next)) == RolledBack(next)
  {
    if use {
      SkipHooks(g, next);
    }
  }

  lemma VersionedHooksOnly(version: uint16, hs: seq<Hook>)
    ensures HooksOnly(VersionedSteps(version, hs))
  {
    VersionedExactly(version, hs);
    forall i | 0 <= i < |VersionedSteps(version, hs)|
      ensures VersionedSteps(version, hs)[i].HookStep?
    {
      assert VersionedSteps(version, hs)[i] in VersionedSteps(version, hs);
    }
  }

  lemma UpStepsExecute(c: MigrationConfig, hooks: map<HookKind, seq<Hook>>, m: Migration, to: uint16, next: seq<Step>)
    ensures Executed(UpSteps(c, hooks, m, to, next)) == [m] + Executed(next)
    ensures RolledBack(UpSteps(c, hooks, m, to, next)) == RolledBack(next)
  {
    VersionedHooksOnly(m.version, HooksOf(hooks, BeforeVersion));
    VersionedHooksOnly(m.version, HooksOf(hooks, AfterVersion));
    var tail :=
      Group(c.useAfterVersion, VersionedSteps(m.version, HooksOf(hooks, AfterVersion)),
      Group(c.useAfterEach, HookSteps(HooksOf(hooks, AfterEach)),
      Group(c.useRepeatable && m.version < to, HookSteps(HooksOf(hooks, Repeatable)), next)));
    SkipGroup(c.useRepeatable && m.version < to, HookSteps(HooksOf(hooks, Repeatable)), next);
    SkipGroup(c.useAfterEach, HookSteps(HooksOf(hooks, AfterEach)),
              Group(c.useRepeatable && m.version < to, HookSteps(HooksOf(hooks, Repeatable)), next));
    SkipGroup(c.useAfterVersion, VersionedSteps(m.version, HooksOf(hooks, AfterVersion)),
              Group(c.useAfterEach, HookSteps(HooksOf(hooks, AfterEach)),
              Group(c.useRepeatable && m.version < to, HookSteps(HooksOf(hooks, Repeatable)), next)));
    assert ([ExecStep(m)] + tail)[1..] == tail;
    SkipGroup(c.useBeforeVersion, VersionedSteps(m.version, HooksOf(hooks, BeforeVersion)), [ExecStep(m)] + tail);
    SkipGroup(c.useBeforeEach, HookSteps(HooksOf(hooks, BeforeEach)),
              Group(c.useBeforeVersion, VersionedSteps(m.version, HooksOf(hooks, BeforeVersion)), [ExecStep(m)] + tail));
  }

  lemma {:induction false} UpBodyExecutes(c: MigrationConfig, hooks: map<HookKind, seq<Hook>>, ms: seq<Migration>, from: uint16, to: uint16, next: seq<Step>)
    ensures Executed(UpBody(c, hooks, ms, from, to, next)) == Between(ms, from, to) + Executed(next)
    decreases |ms|
  {
    if ms != [] {
      var rest := UpBody(c, hooks, ms[1..], from, to, next);
      UpBodyExecutes(c, hooks, ms[1..], from, to, next);
      if from <= ms[0].version <= to {
        assert UpBody(c, hooks, ms, from, to, next) == UpSteps(c, hooks, ms[0], to, rest);
        assert Between(ms, from, to) == [ms[0]] + Between(ms[1..], from, to);
        UpStepsExecute(c, hooks, ms[0], to, rest);
      } else {
        assert UpBody(c, hooks, ms, from, to, next) == rest;
        assert Between(ms, from, to) == [] + Between(ms[1..], from, to);
      }
    }
  }

  lemma {:induction false} UpBodyRollsBack(c: MigrationConfig, hooks: map<HookKind, seq<Hook>>, ms: seq<Migration>, from: uint16, to: uint16, next: seq<Step>)
    ensures RolledBack(UpBody(c, hooks, ms, from, to, next)) == RolledBack(next)
    decreases |ms|
  {
    if ms != [] {
      var rest := UpBody(c, hooks, ms[1..], from, to, next);
      UpBodyRollsBack(c, hooks, ms[1..], from, to, next);
      if from <= ms[0].version <= to {
        assert UpBody(c, hooks, ms, from, to, next) == UpSteps(c, hooks, ms[0], to, rest);
        UpStepsExecute(c, hooks, ms[0], to, rest);
      } else {
        assert UpBody(c, hooks, ms, from, to, next) == rest;
      }
    }
  }

  /** Going up executes exactly the UP migrations in [from, to], in list order, and rolls
      back nothing. */
  lemma UpPlanExecutes(c: MigrationConfig, hooks: map<HookKind, seq<Hook>>, ups: seq<Migration>, from: uint16, to: uint16)
    ensures Executed(UpPlan(c, hooks, ups, from, to)) == Between(ups, from, to)
    ensures RolledBack(UpPlan(c, hooks, ups, from, to)) == []
  {
    var after := Group(c.useAfter, HookSteps(HooksOf(hooks, After)), []);
    SkipGroup(c.useAfter, HookSteps(HooksOf(hooks, After)), []);
    UpBodyExecutes(c, hooks, ups, from, to, after);
    UpBodyRollsBack(c, hooks, ups, from, to, after);
    SkipGroup(c.useBefore, HookSteps(HooksOf(hooks, Before)), UpBody(c, hooks, ups, from, to, after));
    assert Between(ups, from, to) + [] == Between(ups, from, to);
  }

  /** Going down rolls back exactly the DOWN migrations in [to, from], in list order, and
      executes nothing. */
  lemma {:induction false} DownPlanRollsBack(c: MigrationConfig, hooks: map<HookKind, seq<Hook>>, downs: seq<Migration>, from: uint16, to: uint16)
    ensures RolledBack(DownPlan(c, hooks, downs, from, to)) == Between(downs, to, from)
    ensures Executed(DownPlan(c, hooks, downs, from, to)) == []
    decreases |downs|
  {
    if downs != [] {
      var m := downs[0];
      var next := DownPlan(c, hooks, downs[1..], from, to);
      DownPlanRollsBack(c, hooks, downs[1..], from, to);
      if !(from < m.version || to > m.version) {
        var tail := Group(c.useRepeatable && m.version > to, HookSteps(HooksOf(hooks, RepeatableDown)), next);
        SkipGroup(c.useRepeatable && m.version > to, HookSteps(HooksOf(hooks, RepeatableDown)), next);
        assert ([RollbackStep(m)] + tail)[1..] == tail;
      }
    }
  }

  lemma {:induction false} ExecutedHas(steps: seq<Step>, s: Step)
    requires s in steps
    ensures s.ExecStep? ==> s.migration in Executed(steps)
    ensures s.RollbackStep? ==> s.migration in RolledBack(steps)
    decreases |steps|
  {
    if steps[0] != s {
      ExecutedHas(steps[1..], s);
    }
  }

  /** The versions never decrease along the list. */
  predicate Ascending(ms: seq<Migration>) {
    forall i, j :: 0 <= i < j < |ms| ==> ms[i].version <= ms[j].version
  }

  lemma HeadLowest(ms: seq<Migration>, lo: uint16, hi: uint16)
    requires ms != [] && Ascending(ms)
    ensures forall m :: m in Between(ms[1..], lo, hi) ==> ms[0].version <= m.version
  {
    forall m | m in Between(ms[1..], lo, hi)
      ensures ms[0].version <= m.version
    {
      var k :| 0 <= k < |ms[1..]| && ms[1..][k] == m;
      assert ms[k + 1] == m;
    }
  }

  lemma AscendingCons(x: Migration, rest: seq<Migration>)
    requires Ascending(rest)
    requires forall m :: m in rest ==> x.version <= m.version
    ensures Ascending([x] + rest)
  {
    var r := [x] + rest;
    forall i, j | 0 <= i < j < |r|
      ensures r[i].version <= r[j].version
    {
      assert r[j] == rest[j - 1];
      if i == 0 {
        assert rest[j - 1] in rest;
      } else {
        assert r[i] == rest[i - 1];
      }
    }
  }

  /** Taken in loaded order, an ascending list executes in ascending version order. */
  lemma {:induction false} BetweenAscending(ms: seq<Migration>, lo: uint16, hi: uint16)
    requires Ascending(ms)
    ensures Ascending(Between(ms, lo, hi))
    decreases |ms|
  {
    if ms != [] {
      assert Ascending(ms[1..]);
      BetweenAscending(ms[1..], lo, hi);
      var rest := Between(ms[1..], lo, hi);
      if lo <= ms[0].version <= hi {
        HeadLowest(ms, lo, hi);
        AscendingCons(ms[0], rest);
      } else {
        assert Between(ms, lo, hi) == [] + rest;
      }
    }
  }

  // ---- Migrate ----

  /** The destination `Migrate` settles on: the configured one, else 0 going down and the
      last loaded UP version going up. */
  function ResolvedDestination(c: MigrationConfig, ups: seq<Migration>): uint16
    requires c.destination.Some? || c.down || |ups| > 0
  {
    if c.destination.Some? then c.destination.value
    else if c.down then 0
    else ups[|ups| - 1].version
  }

  /** With the UP list sorted, the default destination is the highest loaded version. */
  lemma DefaultIsHighest(c: MigrationConfig, ups: seq<Migration>)
    requires c.destination.None? && !c.down && |ups| > 0
    requires Ascending(ups)
    ensures ResolvedDestination(c, ups) in (set m | m in ups :: m.version)
    ensures forall m :: m in ups ==> m.version <= ResolvedDestination(c, ups)
  {
    assert ups[|ups| - 1] in ups;
  }

  /** The precondition the source relies on: once the table is asserted and the latest
      version read, going up without a destination needs at least one UP migration, whose
      last element it indexes. */
  predicate Resolvable(c: MigrationConfig, repo: Repository, ld: Loaded) {
    ld.errs == [] && repo.assertTable.None? && repo.latest.Ok? && !c.down && c.destination.None? ==> |ld.ups| > 0
  }

  /** Have loading, the table assertion and the latest-version query all succeeded? */
  predicate Reached(repo: Repository, ld: Loaded) {
    ld.errs == [] && repo.assertTable.None? && repo.latest.Ok?
  }

  /** The configuration as `Migrate` leaves it: the resolved destination is written into
      it once the latest version has been read; nothing else changes. */
  function Settled(c: MigrationConfig, repo: Repository, ld: Loaded): (r: MigrationConfig)
    requires Resolvable(c, repo, ld)
    ensures c.destination.Some? ==> r == c
    ensures Reached(repo, ld) ==> r.destination.Some?
    ensures Reached(repo, ld) && c.down && c.destination.None? ==> r.destination == Some(0)
  {
    if Reached(repo, ld) then c.(destination := Some(ResolvedDestination(c, ld.ups))) else c
  }

  /** `Migrate` changes no setting of the configuration but the destination. */
  lemma SettledOnlyDestination(c: MigrationConfig, repo: Repository, ld: Loaded)
    requires Resolvable(c, repo, ld)
    ensures Settled(c, repo, ld) == c.(destination := Settled(c, repo, ld).destination)
  {
  }

  /** The destination, once written, stays: a later call keeps it. */
  lemma SettledPersists(c: MigrationConfig, repo: Repository, ld: Loaded, repo2: Repository, ld2: Loaded)
    requires Resolvable(c, repo, ld) && Reached(repo, ld)
    ensures Resolvable(Settled(c, repo, ld), repo2, ld2)
    ensures Settled(Settled(c, repo, ld), repo2, ld2) == Settled(c, repo, ld)
  {
  }

  /** What the callback given to `DoInLock` leaves: the steps issued, whether they ran in a
      transaction whose work was lost (rolled back after an error, or a failed commit, whose
      error `DoInTransaction` drops), and the errors returned. */
  datatype Locked = Locked(trace: seq<Step>, undone: bool, errs: seq<Error>)

  /** The steps of the execution phase, in the configured direction. */
  function Plan(c: MigrationConfig, ld: Loaded, latest: uint16, dest: uint16): seq<Step> {
    if c.down then DownPlan(c, ld.hooks, ld.downs, latest, dest)
    else UpPlan(c, ld.hooks, ld.ups, Succ16(latest), dest)
  }

  /** Both validations pass, or validation is off. */
  predicate Validated(c: MigrationConfig, repo: Repository, ld: Loaded) {
    c.validate ==> Migrations.ContiguityErrors(ld.ups, 1) == [] && repo.validate(ld.ups) == []
  }

  /** The cases where `Migrate` has nothing to do: the destination is the latest version,
      or lies against the configured direction. */
  predicate NoOp(c: MigrationConfig, latest: uint16, dest: uint16) {
    latest == dest || (!c.down && dest < latest) || (c.down && dest > latest)
  }

  /** The callback `Migrate` runs under the lock. Nothing is issued unless loading, the table
      assertion, the latest-version query and (when enabled) both validations succeed, the
      destination lies in the configured direction, and any transaction has begun. */
  function Callback(c: MigrationConfig, repo: Repository, ld: Loaded): (r: Locked)
    requires Resolvable(c, repo, ld)
    ensures ld.errs != [] ==> r == Locked([], false, ld.errs)
    ensures Reached(repo, ld) && c.validate && Migrations.ContiguityErrors(ld.ups, 1) != [] ==>
              r == Locked([], false, Migrations.ContiguityErrors(ld.ups, 1))
    ensures r.trace != [] ==>
              && Reached(repo, ld)
              && (c.validate ==> Migrations.ContiguityErrors(ld.ups, 1) == [] && repo.validate(ld.ups) == [])
              && (c.inTransaction ==> repo.begin.None?)
              && var dest := ResolvedDestination(c, ld.ups);
                 if c.down then dest < repo.latest.value else repo.latest.value < dest
    ensures r.undone <==> c.inTransaction && r.trace != [] && (r.errs != [] || repo.commit.Some?)
    ensures ld.errs == [] && repo.assertTable.Some? ==> r == Locked([], false, [repo.assertTable.value])
    ensures ld.errs == [] && repo.assertTable.None? && repo.latest.Err? ==> r == Locked([], false, [repo.latest.error])
    ensures Reached(repo, ld) && c.validate && Migrations.ContiguityErrors(ld.ups, 1) == [] && repo.validate(ld.ups) != [] ==>
              r == Locked([], false, repo.validate(ld.ups))
    ensures Reached(repo, ld) && Validated(c, repo, ld) && NoOp(c, repo.latest.value, ResolvedDestination(c, ld.ups)) ==>
              r == Locked([], false, [])
    ensures Reached(repo, ld) && Validated(c, repo, ld) && !NoOp(c, repo.latest.value, ResolvedDestination(c, ld.ups))
            && c.inTransaction && repo.begin.Some? ==>
              r == Locked([], false, [repo.begin.value])
  {
    if ld.errs != [] then Locked([], false, ld.errs)
    else if repo.assertTable.Some? then Locked([], false, [repo.assertTable.value])
    else if repo.latest.Err? then Locked([], false, [repo.latest.error])
    else Resolved(Settled(c, repo, ld), repo, ld, repo.latest.value)
  }

  /** The second half of the callback, once the latest version is read and the destination
      written into the configuration: validation, the no-op cases, the transaction, and the
      execution phase. */
  function Resolved(c: MigrationConfig, repo: Repository, ld: Loaded, latest: uint16): (r: Locked)
    requires c.destination.Some?
    ensures c.validate && Migrations.ContiguityErrors(ld.ups, 1) != [] ==>
              r == Locked([], false, Migrations.ContiguityErrors(ld.ups, 1))
    ensures r.trace != [] ==>
              && (c.validate ==> Migrations.ContiguityErrors(ld.ups, 1) == [] && repo.validate(ld.ups) == [])
              && (c.inTransaction ==> repo.begin.None?)
              && var dest := c.destination.value;
                 if c.down then dest < latest else latest < dest
    ensures r.undone <==> c.inTransaction && r.trace != [] && (r.errs != [] || repo.commit.Some?)
    ensures c.validate && Migrations.ContiguityErrors(ld.ups, 1) == [] && repo.validate(ld.ups) != [] ==>
              r == Locked([], false, repo.validate(ld.ups))
    ensures Validated(c, repo, ld) && NoOp(c, latest, c.destination.value) ==> r == Locked([], false, [])
    ensures Validated(c, repo, ld) && !NoOp(c, latest, c.destination.value) && c.inTransaction && repo.begin.Some? ==>
              r == Locked([], false, [repo.begin.value])
  {
    var dest := c.destination.value;
    var local := Migrations.ContiguityErrors(ld.ups, 1);
    if c.validate && local != [] then Locked([], false, local)
    else if c.validate && repo.validate(ld.ups) != [] then Locked([], false, repo.validate(ld.ups))
    else if latest == dest then Locked([], false, [])
    else if !c.down && dest < latest then Locked([], false, [])
    else if c.down && dest > latest then Locked([], false, [])
    else if c.inTransaction && repo.begin.Some? then Locked([], false, [repo.begin.value])
    else
      var p := Run(repo, c.force, Progress([], []), Plan(c, ld, latest, dest));
      RunNoStepNoError(repo, c.force, Plan(c, ld, latest, dest));
      Locked(p.trace, c.inTransaction && p.trace != [] && (p.errs != [] || repo.commit.Some?), p.errs)
  }

  lemma RunNoStepNoError(repo: Repository, force: bool, steps: seq<Step>)
    ensures var r := Run(repo, force, Progress([], []), steps); r.trace == [] ==> r.errs == []
  {
    RunClean(repo, force, [], steps);
    RunIssuesPrefix(repo, force, Progress([], []), steps);
    var r := Run(repo, force, Progress([], []), steps);
    if r.trace == [] && r.errs != [] {
      var k :| 0 <= k <= |steps| && r.trace == [] + steps[..k];
      if 0 < |steps| && !force {
        assert r == Issue(repo, Progress([], []), steps[0]) || r == Run(repo, force, Issue(repo, Progress([], []), steps[0]), steps[1..]);
        RunIssuesPrefix(repo, force, Issue(repo, Progress([], []), steps[0]), steps[1..]);
      } else if 0 < |steps| {
        RunIssuesPrefix(repo, force, Issue(repo, Progress([], []), steps[0]), steps[1..]);
      }
    }
  }

  /** The steps `Migrate` may issue once the destination is known: going up, hooks and the
      loaded UP migrations above the latest version up to the destination; going down,
      hooks and the loaded DOWN migrations from the latest version down to the destination. */
  predicate Allowed(c: MigrationConfig, ld: Loaded, latest: uint16, dest: uint16, s: Step) {
    match s
      case HookStep(_) => true
      case ExecStep(m) => !c.down && m in ld.ups && latest < m.version <= dest
      case RollbackStep(m) => c.down && m in ld.downs && dest <= m.version <= latest
  }

  /** Only pending UP migrations are executed going up, and only applied DOWN migrations
      are rolled back going down. */
  lemma OnlyAllowedSteps(c: MigrationConfig, repo: Repository, ld: Loaded)
    requires Resolvable(c, repo, ld)
    ensures var r := Callback(c, repo, ld);
            r.trace != [] ==>
              && Reached(repo, ld)
              && forall s :: s in r.trace ==> Allowed(c, ld, repo.latest.value, ResolvedDestination(c, ld.ups), s)
  {
    var r := Callback(c, repo, ld);
    if r.trace != [] {
      var latest := repo.latest.value;
      var c' := Settled(c, repo, ld);
      var dest := c'.destination.value;
      var plan := Plan(c', ld, latest, dest);
      RunIssuesPrefix(repo, c.force, Progress([], []), plan);
      var k :| 0 <= k <= |plan| && r.trace == [] + plan[..k];
      if c.down {
        DownPlanRollsBack(c', ld.hooks, ld.downs, latest, dest);
      } else {
        UpPlanExecutes(c', ld.hooks, ld.ups, Succ16(latest), dest);
      }
      forall s | s in r.trace
        ensures Allowed(c, ld, latest, dest, s)
      {
        assert s in plan;
        ExecutedHas(plan, s);
      }
    }
  }

  /** Once every check has passed and the destination lies in the configured direction,
      the callback reports no error exactly when no step of its plan fails, and it then
      issues the whole plan: going up it executes exactly the loaded UP migrations above the
      latest version up to the destination, going down it rolls back exactly the loaded DOWN
      migrations from the latest version down to the destination. In a transaction, that
      work is lost only when the commit fails, and no error is reported then either. */
  lemma CleanMigration(c: MigrationConfig, repo: Repository, ld: Loaded)
    requires Resolvable(c, repo, ld) && Reached(repo, ld)
    requires Validated(c, repo, ld) && (c.inTransaction ==> repo.begin.None?)
    requires !NoOp(c, repo.latest.value, ResolvedDestination(c, ld.ups))
    ensures var r := Callback(c, repo, ld);
            var latest := repo.latest.value;
            var dest := ResolvedDestination(c, ld.ups);
            var plan := Plan(Settled(c, repo, ld), ld, latest, dest);
            && (r.errs == [] <==> Clean(repo, [], plan))
            && (r.errs == [] ==>
                  && r.trace == plan
                  && (r.undone <==> c.inTransaction && plan != [] && repo.commit.Some?)
                  && (c.down ==> RolledBack(r.trace) == Between(ld.downs, dest, latest) && Executed(r.trace) == [])
                  && (!c.down ==> Executed(r.trace) == Between(ld.ups, Succ16(latest), dest) && RolledBack(r.trace) == []))
  {
    var latest := repo.latest.value;
    var c' := Settled(c, repo, ld);
    var dest := ResolvedDestination(c, ld.ups);
    var plan := Plan(c', ld, latest, dest);
    RunClean(repo, c.force, [], plan);
    assert [] + plan == plan;
    if c.down {
      DownPlanRollsBack(c', ld.hooks, ld.downs, latest, dest);
    } else {
      UpPlanExecutes(c', ld.hooks, ld.ups, Succ16(latest), dest);
    }
  }

  /** How `Migrate` ends: it returns the joined errors (none for nil), or it panics. */
  datatype Outcome = Returned(errs: seq<Error>) | Panicked(cause: Error)

  datatype Report = Report(trace: seq<Step>, undone: bool, outcome: Outcome)

  /** `Migrate`: the callback runs only once the lock is held; a failed release panics. */
  function MigrateSpec(c: MigrationConfig, repo: Repository, ld: Loaded): (r: Report)
    requires repo.acquire.None? ==> Resolvable(c, repo, ld)
    ensures repo.acquire.Some? ==> r == Report([], false, Returned([repo.acquire.value]))
    ensures repo.acquire.None? && repo.release.Some? ==> r.outcome == Panicked(LockReleaseFailed(repo.release.value))
    ensures r.trace != [] ==> repo.acquire.None?
    ensures repo.acquire.None? && repo.release.None? ==> r.outcome == Returned(Callback(c, repo, ld).errs)
  {
    if repo.acquire.Some? then Report([], false, Returned([repo.acquire.value]))
    else
      var k := Callback(c, repo, ld);
      Report(k.trace, k.undone,
             if repo.release.Some? then Panicked(LockReleaseFailed(repo.release.value)) else Returned(k.errs))
  }

  class Migrator {
    const repository: Repository
    var config: MigrationConfig

    /** `NewMigrator`. */
    constructor(repository: Repository, config: MigrationConfig)
      ensures this.repository == repository && this.config == config
    {
      this.repository := repository;
      this.config := config;
    }

    /** `executeHooks`: runs the hooks in order; without `force` the first failure ends it. */
    method ExecuteHooks(hs: seq<Hook>, trace: seq<Step>) returns (p: Progress)
      ensures p == Run(repository, config.force, Progress(trace, []), HookSteps(hs))
    {
      ghost var goal := Run(repository, config.force, Progress(trace, []), HookSteps(hs));
      p := Progress(trace, []);
      assert hs[0..] == hs;
      for i := 0 to |hs|
        invariant !Stopped(config.force, p)
        invariant Run(repository, config.force, p, HookSteps(hs[i..])) == goal
      {
        assert hs[i..][0] == hs[i] && hs[i..][1..] == hs[i + 1..];
        RunCons(repository, config.force, p, HookStep(hs[i]), HookSteps(hs[i + 1..]));
        ghost var before := p;
        var err := repository.executeHook(p.trace, hs[i]);
        var errs := p.errs;
        if err.Some? {
          errs := errs + [err.value];
        }
        p := Progress(p.trace + [HookStep(hs[i])], errs);
        assert p == Issue(repository, before, HookStep(hs[i]));
        if err.Some? && !config.force {
          return;
        }
      }
      assert hs[|hs|..] == [];
    }

    /** `executeVersionedHooks`: as `executeHooks`, over the hooks of the given version. */
    method ExecuteVersionedHooks(version: uint16, hs: seq<Hook>, trace: seq<Step>) returns (p: Progress)
      ensures p == Run(repository, config.force, Progress(trace, []), VersionedSteps(version, hs))
    {
      ghost var goal := Run(repository, config.force, Progress(trace, []), VersionedSteps(version, hs));
      p := Progress(trace, []);
      assert hs[0..] == hs;
      for i := 0 to |hs|
        invariant !Stopped(config.force, p)
        invariant Run(repository, config.force, p, VersionedSteps(version, hs[i..])) == goal
      {
        assert hs[i..][0] == hs[i] && hs[i..][1..] == hs[i + 1..];
        if version == hs[i].version {
          assert VersionedSteps(version, hs[i..]) == [HookStep(hs[i])] + VersionedSteps(version, hs[i + 1..]);
          RunCons(repository, config.force, p, HookStep(hs[i]), VersionedSteps(version, hs[i + 1..]));
          ghost var before := p;
          var err := repository.executeHook(p.trace, hs[i]);
          var errs := p.errs;
          if err.Some? {
            errs := errs + [err.value];
          }
          p := Progress(p.trace + [HookStep(hs[i])], errs);
          assert p == Issue(repository, before, HookStep(hs[i]));
          if err.Some? && !config.force {
            return;
          }
        } else {
          assert VersionedSteps(version, hs[i..]) == [] + VersionedSteps(version, hs[i + 1..]);
          assert VersionedSteps(version, hs[i..]) == VersionedSteps(version, hs[i + 1..]);
        }
      }
      assert hs[|hs|..] == [];
    }

    /** `migrateUp`: the UP plan from `from` to `to`, run under the force rule. */
    method MigrateUp(ups: seq<Migration>, hooks: map<HookKind, seq<Hook>>, from: uint16, to: uint16) returns (p: Progress)
      ensures p == Run(repository, config.force, Progress([], []), UpPlan(config, hooks, ups, from, to))
    {
      var force := config.force;
      ghost var after := Group(config.useAfter, HookSteps(HooksOf(hooks, After)), []);
      ghost var goal := Run(repository, force, Progress([], []), UpPlan(config, hooks, ups, from, to));
      p := Progress([], []);
      ConsumeGroup(repository, force, p, config.useBefore, HookSteps(HooksOf(hooks, Before)), UpBody(config, hooks, ups, from, to, after));
      if config.useBefore {
        var h := ExecuteHooks(HooksOf(hooks, Before), p.trace);
        p := Merge(p, h);
        if h.errs != [] && !force {
          return;
        }
      }
      assert ups[0..] == ups;
      for i := 0 to |ups|
        invariant !Stopped(force, p)
        invariant Run(repository, force, p, UpBody(config, hooks, ups[i..], from, to, after)) == goal
      {
        assert ups[i..][0] == ups[i] && ups[i..][1..] == ups[i + 1..];
        var m := ups[i];
        if m.version < from || m.version > to {
          continue;
        }
        p := MigrateOne(m, hooks, to, p, UpBody(config, hooks, ups[i + 1..], from, to, after), goal);
        if Stopped(force, p) {
          return;
        }
      }
      assert ups[|ups|..] == [];
      ConsumeGroup(repository, force, p, config.useAfter, HookSteps(HooksOf(hooks, After)), []);
      if config.useAfter {
        var h := ExecuteHooks(HooksOf(hooks, After), p.trace);
        p := Merge(p, h);
        if h.errs != [] && !force {
          return;
        }
      }
    }

    /** One `if config.UseX { executeHooks(...) }` block of `migrateUp` or `migrateDown`:
        the hooks run when the flag is set, their errors are appended, and a failure ends
        the caller unless `force` is set. */
    method HookGroup(use: bool, hs: seq<Hook>, p0: Progress, ghost next: seq<Step>, ghost goal: Progress)
      returns (p: Progress)
      requires !Stopped(config.force, p0)
      requires Run(repository, config.force, p0, Group(use, HookSteps(hs), next)) == goal
      ensures Stopped(config.force, p) ==> p == goal
      ensures !Stopped(config.force, p) ==> Run(repository, config.force, p, next) == goal
    {
      p := p0;
      ConsumeGroup(repository, config.force, p, use, HookSteps(hs), next);
      if use {
        var h := ExecuteHooks(hs, p.trace);
        p := Merge(p, h);
      }
    }

    /** The same block over `executeVersionedHooks`. */
    method VersionedGroup(use: bool, version: uint16, hs: seq<Hook>, p0: Progress, ghost next: seq<Step>, ghost goal: Progress)
      returns (p: Progress)
      requires !Stopped(config.force, p0)
      requires Run(repository, config.force, p0, Group(use, VersionedSteps(version, hs), next)) == goal
      ensures Stopped(config.force, p) ==> p == goal
      ensures !Stopped(config.force, p) ==> Run(repository, config.force, p, next) == goal
    {
      p := p0;
      ConsumeGroup(repository, config.force, p, use, VersionedSteps(version, hs), next);
      if use {
        var h := ExecuteVersionedHooks(version, hs, p.trace);
        p := Merge(p, h);
      }
    }

    /** The body of `migrateUp`'s loop for one migration in range: the migration's steps
        are run, and what follows them is left to the caller. */
    method MigrateOne(m: Migration, hooks: map<HookKind, seq<Hook>>, to: uint16, p0: Progress,
                      ghost next: seq<Step>, ghost goal: Progress)
      returns (p: Progress)
      requires !Stopped(config.force, p0)
      requires Run(repository, config.force, p0, UpSteps(config, hooks, m, to, next)) == goal
      ensures Stopped(config.force, p) ==> p == goal
      ensures !Stopped(config.force, p) ==> Run(repository, config.force, p, next) == goal
    {
      var force := config.force;
      ghost var n5 := Group(config.useRepeatable && m.version < to, HookSteps(HooksOf(hooks, Repeatable)), next);
      ghost var n4 := Group(config.useAfterEach, HookSteps(HooksOf(hooks, AfterEach)), n5);
      ghost var n3 := Group(config.useAfterVersion, VersionedSteps(m.version, HooksOf(hooks, AfterVersion)), n4);
      ghost var n1 := Group(config.useBeforeVersion, VersionedSteps(m.version, HooksOf(hooks, BeforeVersion)), [ExecStep(m)] + n3);
      p := HookGroup(config.useBeforeEach, HooksOf(hooks, BeforeEach), p0, n1, goal);
      if Stopped(force, p) {
        return;
      }
      p := VersionedGroup(config.useBeforeVersion, m.version, HooksOf(hooks, BeforeVersion), p, [ExecStep(m)] + n3, goal);
      if Stopped(force, p) {
        return;
      }
      RunCons(repository, force, p, ExecStep(m), n3);
      var errs := repository.executeMigration(p.trace, m);
      p := Progress(p.trace + [ExecStep(m)], p.errs + errs);
      if errs != [] && !force {
        return;
      }
      p := VersionedGroup(config.useAfterVersion, m.version, HooksOf(hooks, AfterVersion), p, n4, goal);
      if Stopped(force, p) {
        return;
      }
      p := HookGroup(config.useAfterEach, HooksOf(hooks, AfterEach), p, n5, goal);
      if Stopped(force, p) {
        return;
      }
      p := HookGroup(config.useRepeatable && m.version < to, HooksOf(hooks, Repeatable), p, next, goal);
    }

    /** `migrateDown`: the DOWN plan from `from` down to `to`, run under the force rule. */
    method MigrateDown(downs: seq<Migration>, hooks: map<HookKind, seq<Hook>>, from: uint16, to: uint16) returns (p: Progress)
      ensures p == Run(repository, config.force, Progress([], []), DownPlan(config, hooks, downs, from, to))
    {
      var force := config.force;
      ghost var goal := Run(repository, force, Progress([], []), DownPlan(config, hooks, downs, from, to));
      p := Progress([], []);
      assert downs[0..] == downs;
      for i := 0 to |downs|
        invariant !Stopped(force, p)
        invariant Run(repository, force, p, DownPlan(config, hooks, downs[i..], from, to)) == goal
      {
        assert downs[i..][0] == downs[i] && downs[i..][1..] == downs[i + 1..];
        var m := downs[i];
        if from < m.version || to > m.version {
          continue;
        }
        ghost var next := DownPlan(config, hooks, downs[i + 1..], from, to);
        RunCons(repository, force, p, RollbackStep(m),
                Group(config.useRepeatable && m.version > to, HookSteps(HooksOf(hooks, RepeatableDown)), next));
        var errs := repository.rollbackMigration(p.trace, m);
        p := Progress(p.trace + [RollbackStep(m)], p.errs + errs);
        if errs != [] && !force {
          return;
        }
        ConsumeGroup(repository, force, p, config.useRepeatable && m.version > to, HookSteps(HooksOf(hooks, RepeatableDown)), next);
        if config.useRepeatable && m.version > to {
          var h := ExecuteHooks(HooksOf(hooks, RepeatableDown), p.trace);
          p := Merge(p, h);
          if h.errs != [] && !force {
            return;
          }
        }
      }
      assert downs[|downs|..] == [];
    }

    /** The callback `Migrate` hands to `DoInLock`. */
    method MigrateLocked(ld: Loaded) returns (k: Locked)
      requires Resolvable(config, repository, ld)
      modifies this
      ensures k == Callback(old(config), repository, ld)
      ensures config == Settled(old(config), repository, ld)
    {
      if |ld.errs| > 0 {
        return Locked([], false, ld.errs);
      }
      if repository.assertTable.Some? {
        return Locked([], false, [repository.assertTable.value]);
      }
      if repository.latest.Err? {
        return Locked([], false, [repository.latest.error]);
      }
      var latest := repository.latest.value;
      if !config.down && config.destination.None? {
        config := config.(destination := Some(ld.ups[|ld.ups| - 1].version));
      }
      if config.down && config.destination.None? {
        config := config.(destination := Some(0));
      }
      k := MigrateResolved(ld, latest);
    }

    /** The part of the callback after the destination is fixed. */
    method MigrateResolved(ld: Loaded, latest: uint16) returns (k: Locked)
      requires config.destination.Some?
      ensures k == Resolved(config, repository, ld, latest)
    {
      if config.validate {
        var errs := Migrations.ValidateMigrations(ld.ups);
        if |errs| > 0 {
          return Locked([], false, errs);
        }
        errs := repository.validate(ld.ups);
        if |errs| > 0 {
          return Locked([], false, errs);
        }
      }
      var dest := config.destination.value;
      if latest == dest {
        return Locked([], false, []);
      }
      if !config.down && dest < latest {
        return Locked([], false, []);
      }
      if config.down && dest > latest {
        return Locked([], false, []);
      }
      if config.inTransaction && repository.begin.Some? {
        return Locked([], false, [repository.begin.value]);
      }
      var p;
      if config.down {
        p := MigrateDown(ld.downs, ld.hooks, latest, dest);
      } else {
        p := MigrateUp(ld.ups, ld.hooks, Succ16(latest), dest);
      }
      return Locked(p.trace, config.inTransaction && p.trace != [] && (p.errs != [] || repository.commit.Some?), p.errs);
    }

    /** `Migrate`: everything happens under the repository's lock. */
    method Migrate(ld: Loaded) returns (report: Report)
      requires repository.acquire.None? ==> Resolvable(config, repository, ld)
      modifies this
      ensures report == MigrateSpec(old(config), repository, ld)
      ensures config == if repository.acquire.Some? then old(config) else Settled(old(config), repository, ld)
    {
      if repository.acquire.Some? {
        return Report([], false, Returned([repository.acquire.value]));
      }
      var k := MigrateLocked(ld);
      if repository.release.Some? {
        return Report(k.trace, k.undone, Panicked(LockReleaseFailed(repository.release.value)));
      }
      return Report(k.trace, k.undone, Returned(k.errs));
    }
  }
}

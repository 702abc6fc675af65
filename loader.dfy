/** The pure helpers of the file loader (internal/filesystem/load.go): classifying a file
    name, deciding what the configuration keeps, attaching the checksum, and sorting the
    loaded groups. */
module Loader {
  import opened Types
  import opened Text
  import opened Patterns
  import opened Templates

  /** `strconv.ParseUint(digits, 10, bits)` on a digit string (the patterns only capture
      digits): the value, or a range error when it does not fit below `limit` = 2^bits. */
  function ParseUint(digits: string, limit: nat): (r: Result<nat>)
    requires AllDigits(digits)
    ensures r.Ok? <==> DigitsValue(digits) < limit
    ensures r.Ok? ==> r.value == DigitsValue(digits)
    ensures r.Err? ==> r.error == OutOfRange(digits)
  {
    var v := DigitsValue(digits);
    if v < limit then Ok(v) else Err(OutOfRange(digits))
  }

  /** Does a match of the given pattern carry a number that does not fit below `limit`? */
  predicate Overflows(name: string, k: FileKind, group: nat, limit: nat) {
    && Match(name, PatternOf(k)).Some?
    && var m := Match(name, PatternOf(k)).value;
       group < |m.numbers| && AllDigits(m.numbers[group]) && DigitsValue(m.numbers[group]) >= limit
  }

  /** The migration a matched name describes. */
  function MigrationFromMatch(d: Direction, m: NameMatch): (r: Result<Option<Migration>>)
    requires ValidMatch(PatternOf(MigrationFile(d)), m)
    ensures r.Err? <==> DigitsValue(m.numbers[0]) >= 0x1_0000
    ensures r.Ok? ==> r.value == Some(Migration(DigitsValue(m.numbers[0]), m.description, d, None, ""))
  {
    match ParseUint(m.numbers[0], 0x1_0000)
      case Err(e) => Err(e)
      case Ok(v) => Ok(Some(Migration(v, m.description, d, None, "")))
  }

  /** `mg` carries the version and the description written in the matched name, and no
      content or checksum yet. */
  predicate MigrationReadFrom(mg: Migration, m: NameMatch) {
    && |m.numbers| >= 1 && AllDigits(m.numbers[0]) && mg.version == DigitsValue(m.numbers[0])
    && mg.description == m.description && mg.checksum == None && mg.content == ""
  }

  /** `checkAndLoadMigrationInfo`: the UP and DOWN patterns are tried (the order does not
      matter, see `Patterns.PatternsDisjoint`); a name matching neither is not a migration
      and is not an error. The result has no content and no checksum yet. */
  function CheckAndLoadMigrationInfo(name: string): (r: Result<Option<Migration>>)
    ensures r == Ok(None)
        <==> Match(name, PatternOf(MigrationFile(Up))).None?
             && Match(name, PatternOf(MigrationFile(Down))).None?
    ensures r.Err?
        <==> Overflows(name, MigrationFile(Up), 0, 0x1_0000)
             || Overflows(name, MigrationFile(Down), 0, 0x1_0000)
    ensures r.Ok? && r.value.Some? ==>
              var mg := r.value.value;
              && Match(name, PatternOf(MigrationFile(mg.direction))).Some?
              && MigrationReadFrom(mg, Match(name, PatternOf(MigrationFile(mg.direction))).value)
  {
    var up := Match(name, PatternOf(MigrationFile(Up)));
    var down := Match(name, PatternOf(MigrationFile(Down)));
    PatternsDisjoint(name, MigrationFile(Up), MigrationFile(Down));
    if up.Some? then
      MatchSound(name, PatternOf(MigrationFile(Up)));
      MigrationFromMatchErr(name, Up, up.value);
      MigrationFromMatch(Up, up.value)
    else if down.Some? then
      MatchSound(name, PatternOf(MigrationFile(Down)));
      MigrationFromMatchErr(name, Down, down.value);
      MigrationFromMatch(Down, down.value)
    else Ok(None)
  }

  lemma MigrationFromMatchErr(name: string, d: Direction, m: NameMatch)
    requires Match(name, PatternOf(MigrationFile(d))) == Some(m)
    requires ValidMatch(PatternOf(MigrationFile(d)), m)
    ensures MigrationFromMatch(d, m).Err? <==> Overflows(name, MigrationFile(d), 0, 0x1_0000)
  {
  }

  /** Hook kinds whose name carries the migration version as second number. */
  predicate Versioned(k: HookKind) {
    k == BeforeVersion || k == AfterVersion
  }

  /** Does a name of this hook kind carry an order or a version that does not fit? */
  predicate HookOverflows(name: string, k: HookKind) {
    || Overflows(name, HookFile(k), 0, 0x100)
    || (Versioned(k) && Overflows(name, HookFile(k), 1, 0x1_0000))
  }

  /** The hook a matched name describes: the order must fit in 8 bits and, for the
      version-scoped kinds, the version in 16 bits; other kinds keep version 0. */
  function HookFromMatch(k: HookKind, m: NameMatch): (r: Result<Option<Hook>>)
    requires ValidMatch(PatternOf(HookFile(k)), m)
    ensures r.Err? <==> DigitsValue(m.numbers[0]) >= 0x100
                        || (Versioned(k) && DigitsValue(m.numbers[1]) >= 0x1_0000)
    ensures r.Ok? ==> r.value.Some? && r.value.value.kind == k && r.value.value.content == ""
                      && r.value.value.order == DigitsValue(m.numbers[0])
                      && (Versioned(k) ==> r.value.value.version == DigitsValue(m.numbers[1]))
                      && (!Versioned(k) ==> r.value.value.version == 0)
  {
    match ParseUint(m.numbers[0], 0x100)
      case Err(e) => Err(e)
      case Ok(o) =>
        if Versioned(k) then
          match ParseUint(m.numbers[1], 0x1_0000)
            case Err(e) => Err(e)
            case Ok(v) => Ok(Some(Hook(o, v, "", k)))
        else Ok(Some(Hook(o, 0, "", k)))
  }

  /** All hook kinds, in the order they are tried. */
  const HookKinds: seq<HookKind> :=
    [Repeatable, RepeatableDown, Before, BeforeEach, BeforeVersion, After, AfterEach, AfterVersion]

  /** The first kind in `kinds` whose pattern matches the name. */
  function FirstHookMatch(name: string, kinds: seq<HookKind>): (r: Option<HookKind>)
    ensures r.None? <==> forall k :: k in kinds ==> Match(name, PatternOf(HookFile(k))).None?
    ensures r.Some? ==> r.value in kinds && Match(name, PatternOf(HookFile(r.value))).Some?
  {
    if kinds == [] then None
    else if Match(name, PatternOf(HookFile(kinds[0]))).Some? then Some(kinds[0])
    else FirstHookMatch(name, kinds[1..])
  }

  /** The kind whose pattern a name matches, if any; it is the only one. */
  lemma HookMatchUnique(name: string)
    ensures FirstHookMatch(name, HookKinds).None? ==>
              forall k :: Match(name, PatternOf(HookFile(k))).None?
    ensures FirstHookMatch(name, HookKinds).Some? ==>
              forall k :: k != FirstHookMatch(name, HookKinds).value ==>
                Match(name, PatternOf(HookFile(k))).None?
  {
    forall k ensures k in HookKinds {
      match k
        case Repeatable => assert HookKinds[0] == k;
        case RepeatableDown => assert HookKinds[1] == k;
        case Before => assert HookKinds[2] == k;
        case BeforeEach => assert HookKinds[3] == k;
        case BeforeVersion => assert HookKinds[4] == k;
        case After => assert HookKinds[5] == k;
        case AfterEach => assert HookKinds[6] == k;
        case AfterVersion => assert HookKinds[7] == k;
    }
    if FirstHookMatch(name, HookKinds).Some? {
      var found := FirstHookMatch(name, HookKinds).value;
      forall k | k != found ensures Match(name, PatternOf(HookFile(k))).None? {
        PatternsDisjoint(name, HookFile(found), HookFile(k));
      }
    }
  }

  lemma HookInfoCases(name: string)
    ensures FirstHookMatch(name, HookKinds).None? ==>
              && (forall k :: Match(name, PatternOf(HookFile(k))).None?)
              && (forall k :: !HookOverflows(name, k))
    ensures FirstHookMatch(name, HookKinds).Some? ==>
              var k := FirstHookMatch(name, HookKinds).value;
              && ValidMatch(PatternOf(HookFile(k)), Match(name, PatternOf(HookFile(k))).value)
              && ((exists k' :: HookOverflows(name, k')) <==> HookOverflows(name, k))
  {
    HookMatchUnique(name);
    var found := FirstHookMatch(name, HookKinds);
    if found.None? {
      forall k ensures !HookOverflows(name, k) {
        HookOverflowsMatched(name, k);
      }
    } else {
      var k := found.value;
      MatchSound(name, PatternOf(HookFile(k)));
      forall k' | HookOverflows(name, k') ensures k' == k {
        HookOverflowsMatched(name, k');
      }
    }
  }

  lemma HookOverflowsMatched(name: string, k: HookKind)
    ensures HookOverflows(name, k) ==> Match(name, PatternOf(HookFile(k))).Some?
  {
  }

  /** `checkAndLoadHookInfo`: the hook patterns are tried (the order does not matter, as
      no name matches two of them); a name matching none is not a hook and is not an
      error. */
  function CheckAndLoadHookInfo(name: string): (r: Result<Option<Hook>>)
    ensures r == Ok(None) <==> forall k :: Match(name, PatternOf(HookFile(k))).None?
  {
    match FirstHookMatch(name, HookKinds)
      case None =>
        HookMatchUnique(name);
        Ok(None)
      case Some(k) =>
        MatchSound(name, PatternOf(HookFile(k)));
        HookFromMatch(k, Match(name, PatternOf(HookFile(k))).value)
  }

  /** `h` carries the order and (for the version-scoped kinds) the version written in the
      matched numbers, and no content yet. */
  predicate ReadFrom(h: Hook, m: NameMatch) {
    && |m.numbers| >= 1 && AllDigits(m.numbers[0]) && h.order == DigitsValue(m.numbers[0])
    && (Versioned(h.kind) ==>
          |m.numbers| >= 2 && AllDigits(m.numbers[1]) && h.version == DigitsValue(m.numbers[1]))
    && (!Versioned(h.kind) ==> h.version == 0)
    && h.content == ""
  }

  lemma HookFromMatchReads(k: HookKind, m: NameMatch)
    requires ValidMatch(PatternOf(HookFile(k)), m)
    ensures var r := HookFromMatch(k, m);
            r.Ok? ==> r.value.Some? && r.value.value.kind == k && ReadFrom(r.value.value, m)
  {
  }

  /** A hook read from a name has the kind whose pattern the name matches, the order and
      (for the version-scoped kinds) the version written in it, and no content yet. */
  lemma HookInfoFields(name: string)
    ensures var r := CheckAndLoadHookInfo(name);
            r.Ok? && r.value.Some? ==>
              var h := r.value.value;
              Match(name, PatternOf(HookFile(h.kind))).Some?
              && ReadFrom(h, Match(name, PatternOf(HookFile(h.kind))).value)
  {
    var found := FirstHookMatch(name, HookKinds);
    if found.Some? {
      var k := found.value;
      var m := Match(name, PatternOf(HookFile(k))).value;
      MatchSound(name, PatternOf(HookFile(k)));
      HookFromMatchReads(k, m);
      assert CheckAndLoadHookInfo(name) == HookFromMatch(k, m);
    }
  }

  /** Classifying a hook name fails exactly when the name matches a hook pattern with an
      order that does not fit in 8 bits or a version that does not fit in 16 bits. */
  lemma HookInfoErrors(name: string)
    ensures CheckAndLoadHookInfo(name).Err? <==> exists k :: HookOverflows(name, k)
  {
    HookInfoCases(name);
    var found := FirstHookMatch(name, HookKinds);
    if found.Some? {
      var k := found.value;
      var m := Match(name, PatternOf(HookFile(k))).value;
      HookFromMatchErr(name, k, m);
      assert CheckAndLoadHookInfo(name) == HookFromMatch(k, m);
    }
  }

  lemma HookFromMatchErr(name: string, k: HookKind, m: NameMatch)
    requires Match(name, PatternOf(HookFile(k))) == Some(m)
    requires ValidMatch(PatternOf(HookFile(k)), m)
    ensures HookFromMatch(k, m).Err? <==> HookOverflows(name, k)
  {
  }

  /** `isToAddMigration`. */
  function IsToAddMigration(m: Migration, config: MigrationConfig): (r: bool)
    ensures m.direction == Up ==> r
    ensures m.direction == Down ==> (r <==> config.down)
  {
    m.direction == Up || (m.direction == Down && config.down)
  }

  /** The `Use*` flag of the configuration that governs a hook kind in UP mode. */
  function UseFlag(config: MigrationConfig, k: HookKind): bool {
    match k
      case Before => config.useBefore
      case BeforeEach => config.useBeforeEach
      case BeforeVersion => config.useBeforeVersion
      case After => config.useAfter
      case AfterEach => config.useAfterEach
      case AfterVersion => config.useAfterVersion
      case Repeatable => config.useRepeatable
      case RepeatableDown => false
  }

  /** `isToAddHook`: in DOWN mode only RepeatableDown hooks, and only with `UseRepeatable`;
      in UP mode each kind follows its own flag and RepeatableDown hooks are never kept. */
  function IsToAddHook(h: Hook, config: MigrationConfig): (r: bool)
    ensures config.down ==> (r <==> h.kind == RepeatableDown && config.useRepeatable)
    ensures !config.down ==> (r <==> h.kind != RepeatableDown && UseFlag(config, h.kind))
  {
    if config.down then h.kind == RepeatableDown && config.useRepeatable
    else match h.kind
      case Before => config.useBefore
      case BeforeEach => config.useBeforeEach
      case BeforeVersion => config.useBeforeVersion
      case After => config.useAfter
      case AfterEach => config.useAfterEach
      case AfterVersion => config.useAfterVersion
      case Repeatable => config.useRepeatable
      case RepeatableDown => false
  }

  /** Content attached to a loaded migration: only an UP migration gets a checksum, and it
      is taken over the content as loaded (after template expansion). */
  function WithContent(m: Migration, content: string, checksumOf: string -> string): (r: Migration)
    ensures r.version == m.version && r.description == m.description
    ensures r.direction == m.direction && r.content == content
    ensures r.checksum.Some? <==> m.direction == Up
    ensures r.checksum.Some? ==> r.checksum.value == checksumOf(content)
  {
    var checksum := if m.direction == Up then Some(checksumOf(content)) else None;
    m.(content := content, checksum := checksum)
  }

  /** What one directory entry contributes. */
  datatype Entry = Skipped | MigrationEntry(migration: Migration) | HookEntry(hook: Hook)

  /** What the loader decides for a name before reading the file: the classification
      error, `Skipped` for a name that is neither a wanted migration nor a wanted hook, or
      the wanted migration or hook (without content yet). A name is tried as a migration
      first and as a hook only when it is not one. */
  function Classify(name: string, config: MigrationConfig): (r: Result<Entry>)
    ensures r.Err? <==>
              || CheckAndLoadMigrationInfo(name).Err?
              || (CheckAndLoadMigrationInfo(name) == Ok(None) && CheckAndLoadHookInfo(name).Err?)
    ensures r.Err? && CheckAndLoadMigrationInfo(name).Err? ==> r.error == CheckAndLoadMigrationInfo(name).error
    ensures r.Err? && CheckAndLoadMigrationInfo(name).Ok? ==> r.error == CheckAndLoadHookInfo(name).error
    ensures r.Ok? && r.value.MigrationEntry? <==>
              && CheckAndLoadMigrationInfo(name).Ok? && CheckAndLoadMigrationInfo(name).value.Some?
              && IsToAddMigration(CheckAndLoadMigrationInfo(name).value.value, config)
    ensures r.Ok? && r.value.MigrationEntry? ==>
              CheckAndLoadMigrationInfo(name) == Ok(Some(r.value.migration))
    ensures r.Ok? && r.value.HookEntry? <==>
              && CheckAndLoadMigrationInfo(name) == Ok(None)
              && CheckAndLoadHookInfo(name).Ok? && CheckAndLoadHookInfo(name).value.Some?
              && IsToAddHook(CheckAndLoadHookInfo(name).value.value, config)
    ensures r.Ok? && r.value.HookEntry? ==> CheckAndLoadHookInfo(name) == Ok(Some(r.value.hook))
  {
    match CheckAndLoadMigrationInfo(name)
      case Err(e) => Err(e)
      case Ok(Some(m)) => if IsToAddMigration(m, config) then Ok(MigrationEntry(m)) else Ok(Skipped)
      case Ok(None) =>
        match CheckAndLoadHookInfo(name)
          case Err(e) => Err(e)
          case Ok(Some(h)) => if IsToAddHook(h, config) then Ok(HookEntry(h)) else Ok(Skipped)
          case Ok(None) => Ok(Skipped)
  }

  /** A wanted entry with its loaded content: the content is set and an UP migration gets
      the checksum of it. */
  function WithLoaded(e: Entry, content: string, checksumOf: string -> string): (r: Entry)
    ensures e.MigrationEntry? ==> r == MigrationEntry(WithContent(e.migration, content, checksumOf))
    ensures e.HookEntry? ==> r.HookEntry? && r.hook.content == content
                             && r.hook.(content := e.hook.content) == e.hook
    ensures e.Skipped? ==> r == e
  {
    match e
      case MigrationEntry(m) => MigrationEntry(WithContent(m, content, checksumOf))
      case HookEntry(h) => HookEntry(h.(content := content))
      case Skipped => Skipped
  }

  /** The work done for one directory entry by the loader: classify the name as a
      migration, else as a hook; keep it only if the configuration asks for it; read its
      file (`file` is None when that read fails), expand the templates in it (which
      rewrites the templates used, for every later file to see) and, for an UP migration,
      attach the checksum of the expanded content. */
  method LoadEntry(name: string, file: Option<string>, templates: seq<Template>,
                   config: MigrationConfig, checksumOf: string -> string)
      returns (r: Result<Entry>)
    requires forall i, j :: 0 <= i < j < |templates| ==> templates[i] != templates[j]
    modifies templates
    ensures Classify(name, config).Err? ==> r == Classify(name, config)
    ensures Classify(name, config) == Ok(Skipped) ==> r == Ok(Skipped)
    ensures Classify(name, config).Ok? && !Classify(name, config).value.Skipped? && file.None? ==>
              r == Err(ReadFailed(name))
    ensures Classify(name, config).Ok? && !Classify(name, config).value.Skipped? && file.Some? ==>
              var x := Expand(Names(templates), file.value, old(Contents(templates)));
              && r == Ok(WithLoaded(Classify(name, config).value, x.content, checksumOf))
              && Contents(templates) == x.contents
    ensures r.Err? || r.value.Skipped? ==> Contents(templates) == old(Contents(templates))
  {
    var asMigration := CheckAndLoadMigrationInfo(name);
    if asMigration.Err? {
      return Err(asMigration.error);
    }
    if asMigration.value.Some? {
      var m := asMigration.value.value;
      if !IsToAddMigration(m, config) {
        return Ok(Skipped);
      }
      if file.None? {
        return Err(ReadFailed(name));
      }
      var content := ParseTemplates(file.value, templates);
      return Ok(MigrationEntry(WithContent(m, content, checksumOf)));
    }
    var asHook := CheckAndLoadHookInfo(name);
    if asHook.Err? {
      return Err(asHook.error);
    }
    if asHook.value.Some? && IsToAddHook(asHook.value.value, config) {
      if file.None? {
        return Err(ReadFailed(name));
      }
      var content := ParseTemplates(file.value, templates);
      return Ok(HookEntry(asHook.value.value.(content := content)));
    }
    return Ok(Skipped);
  }

  /** Is `a` sorted by `key`, ascending? */
  ghost predicate SortedBy<T>(s: seq<T>, key: T -> int) {
    forall i, j :: 0 <= i < j < |s| ==> key(s[i]) <= key(s[j])
  }

  /** Exchanges two elements of an array. */
  method Swap<T>(a: array<T>, i: nat, j: nat)
    requires i < j < a.Length
    modifies a
    ensures a[..] == old(a[..])[i := old(a[j])][j := old(a[i])]
    ensures multiset(a[..]) == multiset(old(a[..]))
  {
    a[i], a[j] := a[j], a[i];
  }

  /** One step of insertion sort: the element at i moves left past every element with a
      larger key, so that the first i + 1 elements are ordered. */
  method InsertAt<T>(a: array<T>, i: nat, key: T -> int)
    requires i < a.Length
    requires SortedBy(a[..i], key)
    modifies a
    ensures SortedBy(a[..i + 1], key)
    ensures a[i + 1..] == old(a[i + 1..])
    ensures multiset(a[..]) == multiset(old(a[..]))
  {
    var j := i;
    while j > 0 && key(a[j - 1]) > key(a[j])
      invariant 0 <= j <= i
      invariant forall p, q :: 0 <= p < q <= i && q != j ==> key(a[p]) <= key(a[q])
      invariant forall q :: j < q <= i ==> key(a[j]) <= key(a[q])
      invariant a[i + 1..] == old(a[i + 1..])
      invariant multiset(a[..]) == multiset(old(a[..]))
    {
      Swap(a, j - 1, j);
      j := j - 1;
    }
    forall p, q | 0 <= p < q <= i ensures key(a[p]) <= key(a[q]) {
      if q == j && p < j - 1 {
        assert key(a[p]) <= key(a[j - 1]);
      }
    }
  }

  /** Insertion sort of an array by a key: afterwards the array is ordered by the key and
      holds the same elements. `sort.Slice` is not stable; neither property depends on
      that. */
  method SortByKey<T>(a: array<T>, key: T -> int)
    modifies a
    ensures SortedBy(a[..], key)
    ensures multiset(a[..]) == multiset(old(a[..]))
  {
    for i := 0 to a.Length
      invariant SortedBy(a[..i], key)
      invariant multiset(a[..]) == multiset(old(a[..]))
    {
      InsertAt(a, i, key);
    }
    assert a[..a.Length] == a[..];
  }

  /** `sortMigrations`: UP migrations by ascending version, DOWN migrations by descending
      version. */
  method SortMigrations(ups: array<Migration>, downs: array<Migration>)
    requires ups != downs
    modifies ups, downs
    ensures forall i, j :: 0 <= i < j < ups.Length ==> ups[i].version <= ups[j].version
    ensures forall i, j :: 0 <= i < j < downs.Length ==> downs[i].version >= downs[j].version
    ensures multiset(ups[..]) == multiset(old(ups[..]))
    ensures multiset(downs[..]) == multiset(old(downs[..]))
  {
    SortByKey(ups, (m: Migration) => m.version as int);
    SortByKey(downs, (m: Migration) => -(m.version as int));
  }

  /** `sortHooks`, for one group: ascending order. */
  method SortHooks(hooks: array<Hook>)
    modifies hooks
    ensures forall i, j :: 0 <= i < j < hooks.Length ==> hooks[i].order <= hooks[j].order
    ensures multiset(hooks[..]) == multiset(old(hooks[..]))
  {
    SortByKey(hooks, (h: Hook) => h.order as int);
  }
}

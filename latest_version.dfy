/** The highest UP version among the migration file names of several directories
    (internal/filesystem/migration.go). */
module LatestVersion {
  import opened Types
  import opened Text
  import opened Patterns
  import Loader

  /** What reading one directory gives: its entry names, or a failure. */
  datatype Listing = Entries(names: seq<string>) | Unreadable(location: string)

  /** The version written in an UP migration file name, if the name is one. DOWN files and
      hooks are not UP file names. */
  function UpVersion(name: string): (r: Option<nat>)
    ensures r.Some? ==> Match(name, PatternOf(MigrationFile(Up))).Some?
  {
    var m := Match(name, PatternOf(MigrationFile(Up)));
    if m.None? then None
    else
      MatchSound(name, PatternOf(MigrationFile(Up)));
      Some(DigitsValue(m.value.numbers[0]))
  }

  /** The error a name causes: an UP version that does not fit in 16 bits. */
  function NameProblem(name: string): (r: Option<Error>)
    ensures r.Some? <==> UpVersion(name).Some? && UpVersion(name).value >= 0x1_0000
  {
    match UpVersion(name)
      case None => None
      case Some(v) =>
        if v < 0x1_0000 then None
        else Some(OutOfRange(Match(name, PatternOf(MigrationFile(Up))).value.numbers[0]))
  }

  /** The first problem among names, in order. */
  function FirstBadName(names: seq<string>): (r: Option<Error>)
    ensures r.None? <==> forall i :: 0 <= i < |names| ==> NameProblem(names[i]).None?
    decreases |names|
  {
    if names == [] then None
    else match FirstBadName(names[..|names| - 1])
      case Some(e) => Some(e)
      case None => NameProblem(names[|names| - 1])
  }

  /** The problem of one directory: it cannot be read, or it holds a bad name. */
  function ListingProblem(l: Listing): Option<Error> {
    match l
      case Unreadable(location) => Some(ReadFailed(location))
      case Entries(names) => FirstBadName(names)
  }

  /** The first problem over the directories, in order: what the function returns as its
      error, since it stops there. */
  function FirstProblem(ls: seq<Listing>): (r: Option<Error>)
    ensures r.None? <==> forall i :: 0 <= i < |ls| ==> ListingProblem(ls[i]).None?
    decreases |ls|
  {
    if ls == [] then None
    else match FirstProblem(ls[..|ls| - 1])
      case Some(e) => Some(e)
      case None => ListingProblem(ls[|ls| - 1])
  }

  /** Once a prefix has a problem, the whole has that same first problem. */
  lemma {:induction false} FirstProblemPrefix(ls: seq<Listing>, i: nat)
    requires i <= |ls|
    requires FirstProblem(ls[..i]).Some?
    ensures FirstProblem(ls) == FirstProblem(ls[..i])
    decreases |ls| - i
  {
    if i < |ls| {
      assert ls[..i + 1][..i] == ls[..i];
      FirstProblemPrefix(ls, i + 1);
    } else {
      assert ls[..i] == ls;
    }
  }

  lemma {:induction false} FirstBadNamePrefix(names: seq<string>, j: nat)
    requires j <= |names|
    requires FirstBadName(names[..j]).Some?
    ensures FirstBadName(names) == FirstBadName(names[..j])
    decreases |names| - j
  {
    if j < |names| {
      assert names[..j + 1][..j] == names[..j];
      FirstBadNamePrefix(names, j + 1);
    } else {
      assert names[..j] == names;
    }
  }

  /** Is `v` the UP version of some name in a readable directory? */
  predicate Listed(ls: seq<Listing>, v: nat) {
    exists i, n :: 0 <= i < |ls| && ls[i].Entries? && n in ls[i].names && UpVersion(n) == Some(v)
  }

  /** Is `v` at least every UP version named in the first k directories? */
  predicate Bounds(ls: seq<Listing>, k: nat, v: nat) {
    forall d, n ::
      (0 <= d < k && d < |ls| && ls[d].Entries? && n in ls[d].names && UpVersion(n).Some?)
      ==> UpVersion(n).value <= v
  }

  /** Is `v` at least every UP version among the names? */
  predicate BoundsNames(names: seq<string>, v: nat) {
    forall n :: n in names && UpVersion(n).Some? ==> UpVersion(n).value <= v
  }

  /** The inner loop of `GetLatestVersionFromFiles`, over the entries of one directory:
      raises `latest` to every UP version found, or stops at the first that does not fit. */
  method ScanEntries(names: seq<string>, latest: uint16) returns (r: Result<uint16>)
    ensures r.Err? <==> FirstBadName(names).Some?
    ensures r.Err? ==> r.error == FirstBadName(names).value
    ensures r.Ok? ==> latest <= r.value && BoundsNames(names, r.value)
    ensures r.Ok? && r.value != latest ==> exists n :: n in names && UpVersion(n) == Some(r.value as nat)
  {
    var current := latest;
    for j := 0 to |names|
      invariant FirstBadName(names[..j]).None?
      invariant latest <= current && BoundsNames(names[..j], current)
      invariant current != latest ==> exists n :: n in names && UpVersion(n) == Some(current as nat)
    {
      var name := names[j];
      var m := Match(name, PatternOf(MigrationFile(Up)));
      if m.Some? {
        MatchSound(name, PatternOf(MigrationFile(Up)));
        var parsed := Loader.ParseUint(m.value.numbers[0], 0x1_0000);
        if parsed.Err? {
          ScanStepErr(names, j);
          return Err(parsed.error);
        }
        var version: uint16 := parsed.value;
        var next := if version > current then version else current;
        ScanStepOk(names, j, current, next);
        current := next;
      } else {
        ScanStepOk(names, j, current, current);
      }
    }
    assert names[..|names|] == names;
    return Ok(current);
  }

  lemma ScanStepOk(names: seq<string>, j: nat, current: nat, next: nat)
    requires j < |names| && FirstBadName(names[..j]).None? && BoundsNames(names[..j], current)
    requires NameProblem(names[j]).None? && current <= next
    requires UpVersion(names[j]).Some? ==> UpVersion(names[j]).value <= next
    ensures FirstBadName(names[..j + 1]).None? && BoundsNames(names[..j + 1], next)
  {
    assert names[..j + 1] == names[..j] + [names[j]];
  }

  lemma ScanStepErr(names: seq<string>, j: nat)
    requires j < |names| && FirstBadName(names[..j]).None? && NameProblem(names[j]).Some?
    ensures FirstBadName(names) == NameProblem(names[j])
  {
    FirstBadNameAt(names, j);
    FirstBadNamePrefix(names, j + 1);
  }

  lemma FirstBadNameAt(names: seq<string>, j: nat)
    requires j < |names| && FirstBadName(names[..j]).None?
    ensures FirstBadName(names[..j + 1]) == NameProblem(names[j])
  {
    assert names[..j + 1][..j] == names[..j];
  }

  /** `GetLatestVersionFromFiles`: the directories are read in order and every UP file name
      contributes its version; the first unreadable directory or out-of-range version ends
      the scan with that error. */
  method GetLatestVersionFromFiles(listings: seq<Listing>) returns (r: Result<uint16>)
    ensures r.Err? <==> FirstProblem(listings).Some?
    ensures r.Err? ==> r.error == FirstProblem(listings).value
    ensures r.Ok? ==> Bounds(listings, |listings|, r.value)
    ensures r.Ok? && r.value != 0 ==> Listed(listings, r.value as nat)
    ensures r.Ok? && !(exists v :: Listed(listings, v)) ==> r.value == 0
  {
    var latest: uint16 := 0;
    for i := 0 to |listings|
      invariant FirstProblem(listings[..i]).None?
      invariant Bounds(listings, i, latest)
      invariant latest != 0 ==> Listed(listings, latest as nat)
    {
      ProblemAt(listings, i);
      match listings[i]
      case Unreadable(location) =>
        return Err(ReadFailed(location));
      case Entries(names) =>
        var scanned := ScanEntries(names, latest);
        if scanned.Err? {
          return Err(scanned.error);
        }
        BoundsStep(listings, i, latest, scanned.value);
        if scanned.value != latest {
          ListedAt(listings, i, scanned.value as nat);
        }
        latest := scanned.value;
    }
    assert listings[..|listings|] == listings;
    return Ok(latest);
  }

  /** The directory after a clean prefix decides whether the prefix stays clean, and a
      problem there is the first problem of all. */
  lemma ProblemAt(ls: seq<Listing>, i: nat)
    requires i < |ls| && FirstProblem(ls[..i]).None?
    ensures FirstProblem(ls[..i + 1]) == ListingProblem(ls[i])
    ensures ListingProblem(ls[i]).Some? ==> FirstProblem(ls) == ListingProblem(ls[i])
  {
    assert ls[..i + 1][..i] == ls[..i];
    if ListingProblem(ls[i]).Some? {
      FirstProblemPrefix(ls, i + 1);
    }
  }

  lemma ListedAt(ls: seq<Listing>, i: nat, v: nat)
    requires i < |ls| && ls[i].Entries?
    requires exists n :: n in ls[i].names && UpVersion(n) == Some(v)
    ensures Listed(ls, v)
  {
    var n :| n in ls[i].names && UpVersion(n) == Some(v);
    assert 0 <= i < |ls| && ls[i].Entries? && n in ls[i].names && UpVersion(n) == Some(v);
  }

  lemma BoundsStep(ls: seq<Listing>, i: nat, old_latest: nat, latest: nat)
    requires i < |ls| && ls[i].Entries?
    requires Bounds(ls, i, old_latest) && old_latest <= latest && BoundsNames(ls[i].names, latest)
    ensures Bounds(ls, i + 1, latest)
  {
  }
}

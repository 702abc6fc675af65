/** The file-name patterns of migrations and hooks (internal/conf/conf.go), written as a
    matcher instead of regular expressions.

    Every pattern has the shape `^<prefix>(\d+)_[(\d+)_]([^.]+)<suffix>$`: a fixed letter
    prefix, one or two decimal numbers each followed by `_`, a description of one or more
    characters without `.`, and the suffix `.sql` or `.down.sql`. */
module Patterns {
  import opened Types
  import opened Text

  /** What a file can be: an UP or DOWN migration, or a hook of some kind. */
  datatype FileKind = MigrationFile(direction: Direction) | HookFile(kind: HookKind)

  datatype Pattern = Pattern(prefix: string, numbers: nat, suffix: string)

  /** The pattern of each kind of file: `V` for migrations, `R` for repeatable hooks,
      `B`/`BE`/`BV` before, `A`/`AE`/`AV` after; the version-scoped hooks carry two
      numbers, and the DOWN files end in `.down.sql`. */
  function PatternOf(k: FileKind): (p: Pattern)
    ensures p.numbers >= 1 && |p.prefix| >= 1
    ensures forall i :: 0 <= i < |p.prefix| ==> !IsDigit(p.prefix[i])
  {
    match k
      case MigrationFile(Up) => Pattern("V", 1, ".sql")
      case MigrationFile(Down) => Pattern("V", 1, ".down.sql")
      case HookFile(Repeatable) => Pattern("R", 1, ".sql")
      case HookFile(RepeatableDown) => Pattern("R", 1, ".down.sql")
      case HookFile(Before) => Pattern("B", 1, ".sql")
      case HookFile(BeforeEach) => Pattern("BE", 1, ".sql")
      case HookFile(BeforeVersion) => Pattern("BV", 2, ".sql")
      case HookFile(After) => Pattern("A", 1, ".sql")
      case HookFile(AfterEach) => Pattern("AE", 1, ".sql")
      case HookFile(AfterVersion) => Pattern("AV", 2, ".sql")
  }

  /** The capture groups of a match: the digit strings and the description. */
  datatype NameMatch = NameMatch(numbers: seq<string>, description: string)

  predicate NoDot(s: string) {
    forall i :: 0 <= i < |s| ==> s[i] != '.'
  }

  /** A match that the pattern could have produced. */
  predicate ValidMatch(p: Pattern, m: NameMatch) {
    && |m.numbers| == p.numbers
    && (forall i :: 0 <= i < |m.numbers| ==> |m.numbers[i]| > 0 && AllDigits(m.numbers[i]))
    && |m.description| > 0 && NoDot(m.description)
  }

  /** The numbers as they appear in the name, each followed by `_`. */
  function Groups(numbers: seq<string>): string
    decreases |numbers|
  {
    if numbers == [] then "" else numbers[0] + "_" + Groups(numbers[1..])
  }

  /** The file name a match stands for. */
  function Render(p: Pattern, m: NameMatch): string {
    p.prefix + Groups(m.numbers) + m.description + p.suffix
  }

  /** The end of the run of digits starting at i. */
  function DigitEnd(s: string, i: nat): (e: nat)
    requires i <= |s|
    ensures i <= e <= |s| && forall j :: i <= j < e ==> IsDigit(s[j])
    ensures e < |s| ==> !IsDigit(s[e])
    decreases |s| - i
  {
    if i < |s| && IsDigit(s[i]) then DigitEnd(s, i + 1) else i
  }

  /** n groups `(\d+)_` read from position i: the digit strings and where the text goes on. */
  function ReadGroups(s: string, i: nat, n: nat): (r: Option<(seq<string>, nat)>)
    requires i <= |s|
    ensures r.Some? ==> i <= r.value.1 <= |s| && |r.value.0| == n
    decreases n
  {
    if n == 0 then Some(([], i))
    else
      var e := DigitEnd(s, i);
      if e == i || e == |s| || s[e] != '_' then None
      else match ReadGroups(s, e + 1, n - 1)
        case None => None
        case Some((ds, j)) => Some(([s[i..e]] + ds, j))
  }

  /** The match of a file name against a pattern, if any. */
  function Match(name: string, p: Pattern): (r: Option<NameMatch>)
  {
    if !StartsWith(name, p.prefix) then None
    else match ReadGroups(name, |p.prefix|, p.numbers)
      case None => None
      case Some((ds, j)) =>
        var rest := name[j..];
        if |rest| > |p.suffix| && rest[|rest| - |p.suffix|..] == p.suffix
           && NoDot(rest[..|rest| - |p.suffix|])
        then Some(NameMatch(ds, rest[..|rest| - |p.suffix|]))
        else None
  }

  lemma {:induction false} ReadGroupsSound(s: string, i: nat, n: nat)
    requires i <= |s|
    requires ReadGroups(s, i, n).Some?
    ensures var (ds, j) := ReadGroups(s, i, n).value;
            && (forall k :: 0 <= k < |ds| ==> |ds[k]| > 0 && AllDigits(ds[k]))
            && s[i..j] == Groups(ds)
    decreases n
  {
    if n > 0 {
      var e := DigitEnd(s, i);
      var f := e + 1;
      var m := n - 1;
      ReadGroupsUnfold(s, i, n, e, f, m);
      ReadGroupsSound(s, f, m);
      var (ds, j) := ReadGroups(s, f, m).value;
      var d := s[i..e];
      assert AllDigits(d) by {
        forall k | 0 <= k < |d| ensures IsDigit(d[k]) {
          assert d[k] == s[i + k];
        }
      }
      assert ([d] + ds)[1..] == ds;
      assert s[i..j] == d + "_" + s[f..j];
    }
  }

  /** The converse of `ReadGroupsFold`: a successful read starts with a group of digits
      up to e, then `_`, then the groups read from f = e + 1. */
  lemma ReadGroupsUnfold(s: string, i: nat, n: nat, e: nat, f: nat, m: nat)
    requires i <= |s| && e == DigitEnd(s, i) && f == e + 1 && n > 0 && m == n - 1
    requires ReadGroups(s, i, n).Some?
    ensures i < e < |s| && s[e] == '_' && ReadGroups(s, f, m).Some?
    ensures ReadGroups(s, i, n).value
         == ([s[i..e]] + ReadGroups(s, f, m).value.0, ReadGroups(s, f, m).value.1)
  {
  }

  /** Groups written out from position i are read back exactly, and the text goes on after
      them. */
  lemma {:induction false} ReadGroupsComplete(s: string, i: nat, numbers: seq<string>, tail: string)
    requires i <= |s| && s[i..] == Groups(numbers) + tail
    requires forall k :: 0 <= k < |numbers| ==> |numbers[k]| > 0 && AllDigits(numbers[k])
    ensures ReadGroups(s, i, |numbers|) == Some((numbers, i + |Groups(numbers)|))
    decreases |numbers|
  {
    if numbers != [] {
      var rest := numbers[1..];
      var e := i + |numbers[0]|;
      var f := e + 1;
      GroupsCons(s, i, numbers, tail, e, f);
      DigitEndAt(s, i, e);
      ReadGroupsComplete(s, f, rest, tail);
      var j := f + |Groups(rest)|;
      ReadGroupsFold(s, i, |numbers|, e, f, |rest|, rest, j);
      assert [s[i..e]] + rest == numbers;
      assert j == i + |Groups(numbers)|;
    }
  }

  /** Where the first group written out from position i sits: its digits up to e, then
      `_`, then the other groups from f. */
  lemma GroupsCons(s: string, i: nat, numbers: seq<string>, tail: string, e: nat, f: nat)
    requires i <= |s| && s[i..] == Groups(numbers) + tail && numbers != []
    requires AllDigits(numbers[0]) && e == i + |numbers[0]| && f == e + 1
    ensures e < |s| && s[i..e] == numbers[0] && s[e] == '_'
    ensures f <= |s| && s[f..] == Groups(numbers[1..]) + tail
  {
    var d := numbers[0];
    var r := Groups(numbers[1..]) + tail;
    var t := s[i..];
    GroupsFirst(numbers, tail);
    SplitAtMarker(t, d, r);
    SliceOfSuffix(s, i, t, |d|, e, f);
  }

  lemma GroupsFirst(numbers: seq<string>, tail: string)
    requires numbers != []
    ensures Groups(numbers) + tail == numbers[0] + ("_" + (Groups(numbers[1..]) + tail))
  {
    var g := Groups(numbers[1..]);
    assert Groups(numbers) == numbers[0] + "_" + g;
    Regroup(numbers[0], "_", g, tail);
  }

  lemma Regroup(a: string, b: string, c: string, d: string)
    ensures (a + b + c) + d == a + (b + (c + d))
  {
  }

  /** Positions of `s[i..]` seen from `s`. */
  lemma SliceOfSuffix(s: string, i: nat, t: string, k: nat, e: nat, f: nat)
    requires i <= |s| && t == s[i..] && e == i + k && e < |s| && f == e + 1
    ensures s[i..e] == t[..k] && s[e] == t[k] && s[f..] == t[k + 1..]
  {
  }

  lemma SplitAtMarker(t: string, d: string, r: string)
    requires t == d + ("_" + r)
    ensures |t| == |d| + 1 + |r| && t[..|d|] == d && t[|d|] == '_' && t[|d| + 1..] == r
  {
  }

  /** One group read in front of the groups read from f = e + 1. */
  lemma ReadGroupsFold(s: string, i: nat, n: nat, e: nat, f: nat, m: nat, ds: seq<string>, j: nat)
    requires i <= |s| && e == DigitEnd(s, i) && i < e < |s| && s[e] == '_'
    requires f == e + 1 && n > 0 && m == n - 1
    requires ReadGroups(s, f, m) == Some((ds, j))
    ensures ReadGroups(s, i, n) == Some(([s[i..e]] + ds, j))
  {
  }

  /** The run of digits from i ends at e when every character before e is a digit and
      the one at e is not. */
  lemma {:induction false} DigitEndAt(s: string, i: nat, e: nat)
    requires i <= e < |s| && !IsDigit(s[e])
    requires AllDigits(s[i..e])
    ensures DigitEnd(s, i) == e
    decreases e - i
  {
    if i < e {
      assert s[i] == s[i..e][0];
      assert s[i + 1..e] == s[i..e][1..];
      DigitEndAt(s, i + 1, e);
    }
  }

  /** Soundness: a match is valid and the name is exactly what the match renders to. */
  lemma MatchSound(name: string, p: Pattern)
    requires Match(name, p).Some?
    ensures ValidMatch(p, Match(name, p).value)
    ensures name == Render(p, Match(name, p).value)
  {
    ReadGroupsSound(name, |p.prefix|, p.numbers);
    var (ds, j) := ReadGroups(name, |p.prefix|, p.numbers).value;
    var rest := name[j..];
    assert name == name[..|p.prefix|] + name[|p.prefix|..j] + rest;
    assert rest == rest[..|rest| - |p.suffix|] + rest[|rest| - |p.suffix|..];
  }

  /** Completeness: every valid match is found again in the name it renders to. */
  lemma MatchComplete(p: Pattern, m: NameMatch)
    requires ValidMatch(p, m)
    ensures Match(Render(p, m), p) == Some(m)
  {
    var name := Render(p, m);
    var tail := m.description + p.suffix;
    RenderRegrouped(p, m);
    ThreeParts(p.prefix, Groups(m.numbers), tail);
    ReadGroupsComplete(name, |p.prefix|, m.numbers, tail);
    MatchFromParts(name, p, m.numbers, m.description);
  }

  /** A name made of the prefix, groups read back, then a description without a dot and
      the suffix, matches. */
  lemma MatchFromParts(name: string, p: Pattern, ds: seq<string>, description: string)
    requires name == p.prefix + (Groups(ds) + (description + p.suffix))
    requires ReadGroups(name, |p.prefix|, p.numbers) == Some((ds, |p.prefix| + |Groups(ds)|))
    requires |description| > 0 && NoDot(description)
    ensures Match(name, p) == Some(NameMatch(ds, description))
  {
    var j := |p.prefix| + |Groups(ds)|;
    ThreeParts(p.prefix, Groups(ds), description + p.suffix);
    var rest := name[j..];
    SplitTail(rest, description, p.suffix);
  }

  lemma SplitTail(rest: string, d: string, suffix: string)
    requires rest == d + suffix
    ensures |rest| - |suffix| == |d|
    ensures rest[|rest| - |suffix|..] == suffix && rest[..|rest| - |suffix|] == d
  {
  }

  lemma RenderRegrouped(p: Pattern, m: NameMatch)
    ensures Render(p, m) == p.prefix + (Groups(m.numbers) + (m.description + p.suffix))
  {
  }

  lemma ThreeParts(a: string, b: string, c: string)
    ensures StartsWith(a + (b + c), a)
    ensures (a + (b + c))[|a|..] == b + c
    ensures (a + (b + c))[|a| + |b|..] == c
  {
    assert (a + (b + c))[..|a|] == a;
  }

  /** A name that matches a pattern starts with its prefix followed by a digit. */
  lemma PrefixThenDigit(name: string, p: Pattern)
    requires p.numbers >= 1
    ensures Match(name, p).Some? ==>
              StartsWith(name, p.prefix) && |name| > |p.prefix| && IsDigit(name[|p.prefix|])
  {
    if Match(name, p).Some? {
      var e := DigitEnd(name, |p.prefix|);
      assert name[|p.prefix|..e][0] == name[|p.prefix|];
    }
  }

  /** Two patterns with different letter prefixes never match the same name. */
  lemma DistinctPrefixesDisjoint(name: string, p: Pattern, q: Pattern)
    requires p.numbers >= 1 && q.numbers >= 1
    requires forall i :: 0 <= i < |p.prefix| ==> !IsDigit(p.prefix[i])
    requires forall i :: 0 <= i < |q.prefix| ==> !IsDigit(q.prefix[i])
    requires p.prefix != q.prefix
    ensures Match(name, p).Some? ==> Match(name, q).None?
  {
    PrefixThenDigit(name, p);
    if Match(name, p).Some? {
      var lp, lq := |p.prefix|, |q.prefix|;
      if lp < lq && lq <= |name| {
        // the digit after p's prefix sits where q's prefix has a letter
        assert name[..lq][lp] == name[lp];
      } else if lq < lp && StartsWith(name, q.prefix) {
        // q's prefix is followed by a letter of p's prefix, not by a digit
        assert name[lq] == name[..lp][lq] == p.prefix[lq];
        assert DigitEnd(name, lq) == lq;
      } else if lq == lp && lq <= |name| {
        assert name[..lq] == p.prefix;
      }
    }
  }

  /** A name ending in `.down.sql` leaves a dot in what `.sql` would take as description. */
  lemma DownNotUp(rest: string)
    requires |rest| > 9 && rest[|rest| - 9..] == ".down.sql"
    ensures !NoDot(rest[..|rest| - 4])
  {
    assert rest[..|rest| - 4][|rest| - 9] == rest[|rest| - 9..][0];
  }

  /** `.sql` and `.down.sql` with the same prefix never match the same name: the
      description cannot hold the dot of `.down`. */
  lemma SuffixesDisjoint(name: string, prefix: string, n: nat)
    ensures Match(name, Pattern(prefix, n, ".down.sql")).Some?
        ==> Match(name, Pattern(prefix, n, ".sql")).None?
  {
    if Match(name, Pattern(prefix, n, ".down.sql")).Some? {
      var (ds, j) := ReadGroups(name, |prefix|, n).value;
      DownNotUp(name[j..]);
    }
  }

  /** Kinds that share a prefix differ only in the suffix. */
  lemma SharedPrefix(k1: FileKind, k2: FileKind)
    requires k1 != k2 && PatternOf(k1).prefix == PatternOf(k2).prefix
    ensures PatternOf(k1).numbers == PatternOf(k2).numbers == 1
    ensures {PatternOf(k1).suffix, PatternOf(k2).suffix} == {".sql", ".down.sql"}
  {
    match k1
      case MigrationFile(_) =>
      case HookFile(Repeatable) =>
      case HookFile(RepeatableDown) =>
      case HookFile(Before) =>
      case HookFile(BeforeEach) =>
      case HookFile(BeforeVersion) =>
      case HookFile(After) =>
      case HookFile(AfterEach) =>
      case HookFile(AfterVersion) =>
  }

  /** No file name matches two patterns, so the result of classifying a name does not
      depend on the order in which the patterns are tried. */
  lemma PatternsDisjoint(name: string, k1: FileKind, k2: FileKind)
    requires k1 != k2
    ensures Match(name, PatternOf(k1)).Some? ==> Match(name, PatternOf(k2)).None?
  {
    var p, q := PatternOf(k1), PatternOf(k2);
    if p.prefix != q.prefix {
      DistinctPrefixesDisjoint(name, p, q);
    } else {
      SharedPrefix(k1, k2);
      SuffixesDisjoint(name, p.prefix, 1);
      SuffixesDisjoint(name, q.prefix, 1);
    }
  }
}

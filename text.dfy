/** The handful of Go standard-library string operations the helpers rely on, written
    out over `seq<char>`: `strings.TrimSpace`, `strings.Split`, `strings.Replace` with
    n = -1, `strconv.Itoa` for naturals and decimal digit strings. */
module Text {

  /** `unicode.IsSpace`: the ASCII spaces and the Unicode White_Space characters. */
  predicate IsSpace(c: char) {
    c == ' ' || c == '\t' || c == '\n' || c == '\U{000B}' || c == '\U{000C}' || c == '\r'
    || c == '\U{0085}' || c == '\U{00A0}' || c == '\U{1680}'
    || ('\U{2000}' <= c <= '\U{200A}')
    || c == '\U{2028}' || c == '\U{2029}' || c == '\U{202F}' || c == '\U{205F}' || c == '\U{3000}'
  }

  function TrimLeft(s: string): (r: string)
    ensures |r| <= |s| && r == s[|s| - |r|..]
    ensures r != [] ==> !IsSpace(r[0])
    ensures forall i :: 0 <= i < |s| - |r| ==> IsSpace(s[i])
  {
    if s != [] && IsSpace(s[0]) then TrimLeft(s[1..]) else s
  }

  function TrimRight(s: string): (r: string)
    ensures |r| <= |s| && r == s[..|r|]
    ensures r != [] ==> !IsSpace(r[|r| - 1])
    ensures forall i :: |r| <= i < |s| ==> IsSpace(s[i])
  {
    if s != [] && IsSpace(s[|s| - 1]) then TrimRight(s[..|s| - 1]) else s
  }

  /** `strings.TrimSpace`: the slice of `s` left once the leading and trailing white space
      is removed. */
  function TrimSpace(s: string): (r: string)
    ensures exists i, j ::
              && 0 <= i <= j <= |s| && r == s[i..j]
              && (forall k :: 0 <= k < i ==> IsSpace(s[k]))
              && (forall k :: j <= k < |s| ==> IsSpace(s[k]))
    ensures r != [] ==> !IsSpace(r[0]) && !IsSpace(r[|r| - 1])
  {
    var l := TrimLeft(s);
    var r := TrimRight(l);
    var i := |s| - |l|;
    assert r == s[i..i + |r|];
    r
  }

  /** Does `s` start with `prefix`? */
  predicate StartsWith(s: string, prefix: string) {
    |prefix| <= |s| && s[..|prefix|] == prefix
  }

  /** Does `t` occur in `s` at position i? */
  predicate OccursAt(s: string, t: string, i: nat) {
    i + |t| <= |s| && s[i..i + |t|] == t
  }

  /** `strings.Split(s, sep)` for a non-empty separator: the pieces between the
      non-overlapping occurrences of `sep`, found left to right. */
  function Split(s: string, sep: string): (parts: seq<string>)
    requires sep != []
    ensures |parts| >= 1
    decreases |s|
  {
    if StartsWith(s, sep) then [""] + Split(s[|sep|..], sep)
    else if s == [] then [""]
    else
      var rest := Split(s[1..], sep);
      [[s[0]] + rest[0]] + rest[1..]
  }

  /** `strings.Join(parts, sep)`. */
  function Join(parts: seq<string>, sep: string): (s: string)
    requires |parts| >= 1
    decreases |parts|
  {
    if |parts| == 1 then parts[0] else parts[0] + sep + Join(parts[1..], sep)
  }

  /** `strings.Replace(s, target, by, -1)` for a non-empty target: every non-overlapping
      occurrence of `target`, found left to right in the original text, is replaced. */
  function ReplaceAll(s: string, target: string, repl: string): (r: string)
    requires target != []
    decreases |s|
  {
    if StartsWith(s, target) then repl + ReplaceAll(s[|target|..], target, repl)
    else if s == [] then []
    else [s[0]] + ReplaceAll(s[1..], target, repl)
  }

  lemma JoinCons(c: char, head: string, tail: seq<string>, sep: string)
    ensures Join([[c] + head] + tail, sep) == [c] + Join([head] + tail, sep)
  {
    if tail != [] {
      assert ([[c] + head] + tail)[1..] == tail;
      assert ([head] + tail)[1..] == tail;
    }
  }

  /** Splitting and joining on the same separator gives the text back. */
  lemma {:induction false} JoinSplit(s: string, sep: string)
    requires sep != []
    ensures Join(Split(s, sep), sep) == s
    decreases |s|
  {
    if StartsWith(s, sep) {
      var rest := Split(s[|sep|..], sep);
      JoinSplit(s[|sep|..], sep);
      assert ([""] + rest)[1..] == rest;
      assert s == sep + s[|sep|..];
    } else if s != [] {
      var rest := Split(s[1..], sep);
      JoinSplit(s[1..], sep);
      JoinCons(s[0], rest[0], rest[1..], sep);
      assert [rest[0]] + rest[1..] == rest;
      assert s == [s[0]] + s[1..];
    }
  }

  /** `sep` first occurs in `p + sep` at the end of `p`: `p` is a piece cut at the
      leftmost occurrence. */
  predicate CutAtFirst(p: string, sep: string) {
    forall k :: 0 <= k < |p| ==> !OccursAt(p + sep, sep, k)
  }

  /** `sep` does not occur in `p`. */
  predicate SepFree(p: string, sep: string) {
    forall k :: 0 <= k <= |p| ==> !OccursAt(p, sep, k)
  }

  /** Every piece but the last is cut at the first occurrence of the separator, and the
      last piece holds none. */
  predicate Leftmost(parts: seq<string>, sep: string)
    requires |parts| >= 1
  {
    && (forall i :: 0 <= i < |parts| - 1 ==> CutAtFirst(parts[i], sep))
    && SepFree(parts[|parts| - 1], sep)
  }

  /** The split is leftmost and non-overlapping: every piece but the last ends at the
      first occurrence of the separator after it starts, and the last piece holds none.
      With `JoinSplit` this determines the pieces. */
  lemma {:induction false} SplitLeftmost(s: string, sep: string)
    requires sep != []
    ensures Leftmost(Split(s, sep), sep)
    decreases |s|
  {
    if StartsWith(s, sep) {
      var rest := Split(s[|sep|..], sep);
      SplitLeftmost(s[|sep|..], sep);
      LeftmostEmptyFirst(rest, sep);
      assert Split(s, sep) == [""] + rest;
    } else if s != [] {
      var tail := s[1..];
      var rest := Split(tail, sep);
      SplitLeftmost(tail, sep);
      JoinSplit(tail, sep);
      assert s == [s[0]] + tail;
      LeftmostCons(s[0], tail, rest, sep);
      assert Split(s, sep) == [[s[0]] + rest[0]] + rest[1..];
    }
  }

  lemma LeftmostEmptyFirst(rest: seq<string>, sep: string)
    requires |rest| >= 1 && Leftmost(rest, sep)
    ensures Leftmost([""] + rest, sep)
  {
    var parts := [""] + rest;
    assert forall i :: 1 <= i < |parts| ==> parts[i] == rest[i - 1];
  }

  /** Prepending a character that does not start a separator to the first piece keeps
      the split leftmost. */
  lemma LeftmostCons(c: char, tail: string, rest: seq<string>, sep: string)
    requires sep != [] && |rest| >= 1 && Leftmost(rest, sep)
    requires Join(rest, sep) == tail && !StartsWith([c] + tail, sep)
    ensures Leftmost([[c] + rest[0]] + rest[1..], sep)
  {
    var p := rest[0];
    var q := [c] + p;
    var parts := [q] + rest[1..];
    if |rest| > 1 {
      JoinStarts(rest, sep);
      ConsStarts(c, tail, p + sep);
      FirstPieceCut(c, p, [c] + tail, sep);
      assert forall i :: 1 <= i < |parts| ==> parts[i] == rest[i];
    } else {
      assert tail == p;
      FirstPieceFree(c, p, sep);
    }
  }

  lemma FirstPieceCut(c: char, p: string, s: string, sep: string)
    requires CutAtFirst(p, sep) && StartsWith(s, [c] + (p + sep)) && !StartsWith(s, sep)
    ensures CutAtFirst([c] + p, sep)
  {
    var q := [c] + p;
    assert q + sep == [c] + (p + sep);
    forall k | 0 <= k < |q| ensures !OccursAt(q + sep, sep, k) {
      if k == 0 {
        if OccursAt(q + sep, sep, 0) {
          PrefixStarts(s, q + sep, sep);
        }
      } else {
        ShiftOccurs(c, p + sep, sep, k);
      }
    }
  }

  lemma FirstPieceFree(c: char, p: string, sep: string)
    requires SepFree(p, sep) && !StartsWith([c] + p, sep)
    ensures SepFree([c] + p, sep)
  {
    var q := [c] + p;
    forall k | 0 <= k <= |q| ensures !OccursAt(q, sep, k) {
      if k > 0 {
        ShiftOccurs(c, p, sep, k);
      }
    }
  }

  lemma JoinStarts(parts: seq<string>, sep: string)
    requires |parts| > 1
    ensures StartsWith(Join(parts, sep), parts[0] + sep)
  {
    var r := Join(parts[1..], sep);
    assert Join(parts, sep) == (parts[0] + sep) + r;
  }

  lemma ConsStarts(c: char, s: string, t: string)
    requires StartsWith(s, t)
    ensures StartsWith([c] + s, [c] + t)
  {
    assert ([c] + s)[..|t| + 1] == [c] + s[..|t|];
  }

  /** A text that starts with `t`, where `t` starts with `sep`, starts with `sep`. */
  lemma PrefixStarts(s: string, t: string, sep: string)
    requires StartsWith(s, t) && OccursAt(t, sep, 0)
    ensures StartsWith(s, sep)
  {
    assert s[..|sep|] == t[..|sep|];
  }

  /** Occurrences in `[c] + p` past the first character are occurrences in `p`. */
  lemma ShiftOccurs(c: char, p: string, sep: string, k: nat)
    requires k >= 1
    ensures OccursAt([c] + p, sep, k) <==> OccursAt(p, sep, k - 1)
  {
    if k + |sep| <= |p| + 1 {
      assert ([c] + p)[k..k + |sep|] == p[k - 1..k - 1 + |sep|];
    }
  }

  /** Replacing is splitting on the target and joining with the replacement, which is
      how `strings.Replace` is documented. */
  lemma {:induction false} ReplaceIsSplitJoin(s: string, target: string, repl: string)
    requires target != []
    ensures ReplaceAll(s, target, repl) == Join(Split(s, target), repl)
    decreases |s|
  {
    if StartsWith(s, target) {
      var rest := Split(s[|target|..], target);
      ReplaceIsSplitJoin(s[|target|..], target, repl);
      assert ([""] + rest)[1..] == rest;
    } else if s != [] {
      var rest := Split(s[1..], target);
      ReplaceIsSplitJoin(s[1..], target, repl);
      JoinCons(s[0], rest[0], rest[1..], repl);
      assert [rest[0]] + rest[1..] == rest;
    }
  }

  /** Replacing a text by itself changes nothing. */
  lemma ReplaceBySelf(s: string, target: string)
    requires target != []
    ensures ReplaceAll(s, target, target) == s
  {
    ReplaceIsSplitJoin(s, target, target);
    JoinSplit(s, target);
  }

  /** A text in which the target never occurs is left unchanged. */
  lemma {:induction false} ReplaceAbsent(s: string, target: string, repl: string)
    requires target != []
    requires forall i :: 0 <= i <= |s| ==> !OccursAt(s, target, i)
    ensures ReplaceAll(s, target, repl) == s
    decreases |s|
  {
    assert !OccursAt(s, target, 0);
    if s != [] {
      forall i | 0 <= i <= |s[1..]| ensures !OccursAt(s[1..], target, i) {
        assert !OccursAt(s, target, i + 1);
        if i + |target| <= |s[1..]| {
          assert s[i + 1..i + 1 + |target|] == s[1..][i..i + |target|];
        }
      }
      ReplaceAbsent(s[1..], target, repl);
    }
  }

  predicate IsDigit(c: char) {
    '0' <= c <= '9'
  }

  predicate AllDigits(s: string) {
    forall i :: 0 <= i < |s| ==> IsDigit(s[i])
  }

  /** The value of a decimal digit string (leading zeros allowed, as `strconv.ParseUint`
      accepts them). */
  function DigitsValue(s: string): (n: nat)
    requires AllDigits(s)
    decreases |s|
  {
    if s == [] then 0 else DigitsValue(s[..|s| - 1]) * 10 + (s[|s| - 1] - '0') as nat
  }

  /** `strconv.Itoa` for naturals: the shortest decimal form. */
  function Itoa(n: nat): (s: string)
    ensures |s| >= 1 && AllDigits(s)
    ensures |s| > 1 ==> s[0] != '0'
    decreases n
  {
    if n < 10 then [('0' as int + n) as char]
    else Itoa(n / 10) + [('0' as int + n % 10) as char]
  }

  /** Reading back what `Itoa` printed gives the number. */
  lemma {:induction false} DigitsItoa(n: nat)
    ensures DigitsValue(Itoa(n)) == n
    decreases n
  {
    if n >= 10 {
      DigitsItoa(n / 10);
      var s := Itoa(n);
      assert s[..|s| - 1] == Itoa(n / 10);
    }
  }
}

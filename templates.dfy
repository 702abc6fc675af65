/** Placeholder expansion in migration files (internal/migrations/templates.go).

    A placeholder is what the regular expression `\{\{([^}]+)\}\}` matches: two opening
    braces, one or more characters other than a closing brace, two closing braces. The
    matches are found once, leftmost first and without overlap, on the original content;
    each is then looked up by name among the templates and replaced. */
module Templates {
  import opened Types
  import opened Text

  /** One match of the placeholder expression: the whole text and the part between the
      braces (the capture group). */
  datatype Placeholder = Placeholder(whole: string, inner: string)

  /** The first closing brace at or after position k, or |s| when there is none. */
  function CloseAt(s: string, k: nat): (c: nat)
    requires k <= |s|
    ensures k <= c <= |s|
    ensures forall j :: k <= j < c ==> s[j] != '}'
    ensures c < |s| ==> s[c] == '}'
    decreases |s| - k
  {
    if k == |s| || s[k] == '}' then k else CloseAt(s, k + 1)
  }

  /** Does a placeholder start at position p? After `{{` the expression takes the longest
      run of characters other than `}` (backtracking cannot help, since a shorter run would
      be followed by a character that is not `}`); the run must be non-empty and be
      followed by `}}`. */
  predicate MatchAt(s: string, p: nat) {
    && p + 2 <= |s| && s[p] == '{' && s[p + 1] == '{'
    && var c := CloseAt(s, p + 2);
       c > p + 2 && c + 1 < |s| && s[c + 1] == '}'
  }

  /** `FindAllStringSubmatch(s, -1)` from position `from`: the leftmost match, then the
      matches after its end. */
  function Scan(s: string, from: nat): (ps: seq<Placeholder>)
    requires from <= |s|
    decreases |s| - from
  {
    if from == |s| then []
    else if MatchAt(s, from) then
      var c := CloseAt(s, from + 2);
      [Placeholder(s[from..c + 2], s[from + 2..c])] + Scan(s, c + 2)
    else Scan(s, from + 1)
  }

  /** What the expression promises of each match. */
  predicate WellFormed(p: Placeholder) {
    && p.whole == "{{" + p.inner + "}}"
    && |p.inner| > 0
    && forall j :: 0 <= j < |p.inner| ==> p.inner[j] != '}'
  }

  /** Every match the scanner reports has the shape the expression describes. */
  lemma {:induction false} ScanWellFormed(s: string, from: nat)
    requires from <= |s|
    ensures forall k :: 0 <= k < |Scan(s, from)| ==> WellFormed(Scan(s, from)[k])
    decreases |s| - from
  {
    if from < |s| {
      if MatchAt(s, from) {
        var c := CloseAt(s, from + 2);
        var p := Placeholder(s[from..c + 2], s[from + 2..c]);
        assert s[from..c + 2] == "{{" + s[from + 2..c] + "}}";
        ScanWellFormed(s, c + 2);
        var ps := Scan(s, from);
        assert ps == [p] + Scan(s, c + 2);
        forall k | 0 <= k < |ps| ensures WellFormed(ps[k]) {
          if k > 0 {
            assert ps[k] == Scan(s, c + 2)[k - 1];
          }
        }
      } else {
        ScanWellFormed(s, from + 1);
      }
    }
  }

  /** The scanner skips nothing: it reports no match exactly when the expression matches
      at no position. */
  lemma {:induction false} ScanEmptyIff(s: string, from: nat)
    requires from <= |s|
    ensures Scan(s, from) == [] <==> forall i :: from <= i < |s| ==> !MatchAt(s, i)
    decreases |s| - from
  {
    if from < |s| {
      if MatchAt(s, from) {
        assert Scan(s, from)[0].whole == s[from..CloseAt(s, from + 2) + 2];
      } else {
        ScanEmptyIff(s, from + 1);
        assert Scan(s, from) == Scan(s, from + 1);
      }
    }
  }

  /** The first match the scanner reports is the one at the leftmost position where the
      expression matches. */
  lemma {:induction false} ScanFindsLeftmost(s: string, from: nat, i: nat)
    requires from <= i < |s| && MatchAt(s, i)
    requires forall j :: from <= j < i ==> !MatchAt(s, j)
    ensures Scan(s, from) != [] && Scan(s, from)[0].whole == s[i..CloseAt(s, i + 2) + 2]
    decreases i - from
  {
    if from < i {
      assert !MatchAt(s, from);
      ScanFindsLeftmost(s, from + 1, i);
      assert Scan(s, from) == Scan(s, from + 1);
    }
  }

  /** Text with no `{{` in it has no placeholder. */
  lemma {:induction false} NoOpeningNoMatch(s: string, from: nat)
    requires from <= |s|
    requires forall i :: from <= i < |s| - 1 ==> !(s[i] == '{' && s[i + 1] == '{')
    ensures Scan(s, from) == []
    decreases |s| - from
  {
    if from < |s| {
      NoOpeningNoMatch(s, from + 1);
    }
  }

  /** The name and the arguments written inside a placeholder: the trimmed text is split on
      commas, the first field trimmed is the name, the others are the arguments. */
  datatype Call = Call(name: string, args: seq<string>)

  function Fields(inner: string): (call: Call)
    ensures |call.args| == |Split(TrimSpace(inner), ",")| - 1
  {
    var values := Split(TrimSpace(inner), ",");
    Call(TrimSpace(values[0]), values[1..])
  }

  /** The marker for the i-th argument, `$i`. */
  function Dollar(i: nat): (d: string)
    ensures |d| >= 2 && d[0] == '$' && d[1..] == Itoa(i)
  {
    "$" + Itoa(i)
  }

  /** The template text after substituting the first n arguments, `$1` first: each `$i` is
      replaced by the i-th argument, trimmed. */
  function Substitute(text: string, args: seq<string>, n: nat): (r: string)
    requires n <= |args|
    decreases n
  {
    if n == 0 then text
    else ReplaceAll(Substitute(text, args, n - 1), Dollar(n), TrimSpace(args[n - 1]))
  }

  /** A template without any `$` marker is not changed by substitution. */
  lemma {:induction false} SubstituteNoMarker(text: string, args: seq<string>, n: nat)
    requires n <= |args|
    requires forall i :: 0 <= i < |text| ==> text[i] != '$'
    ensures Substitute(text, args, n) == text
    decreases n
  {
    if n > 0 {
      SubstituteNoMarker(text, args, n - 1);
      forall i | 0 <= i <= |text| ensures !OccursAt(text, Dollar(n), i) {
        if i < |text| {
          assert text[i] != '$';
        }
      }
      ReplaceAbsent(text, Dollar(n), TrimSpace(args[n - 1]));
    }
  }

  /** The position of the first template called `name`. */
  function FirstNamed(names: seq<string>, name: string): (r: Option<nat>)
    ensures r.None? <==> name !in names
    ensures r.Some? ==> r.value < |names| && names[r.value] == name
                        && forall j :: 0 <= j < r.value ==> names[j] != name
  {
    if names == [] then None
    else if names[0] == name then Some(0)
    else match FirstNamed(names[1..], name)
      case None => None
      case Some(i) => Some(i + 1)
  }

  /** The state the expansion works on: the migration content and the content of every
      template, position by position. */
  datatype Expansion = Expansion(content: string, contents: seq<string>)

  /** One placeholder handled. A placeholder naming no template is left as it is. Otherwise
      the first template of that name has its arguments substituted into its own content
      (the template is changed, so a later use sees the substituted text), and every
      occurrence of the placeholder's whole text is replaced by the result. */
  function ExpandOne(names: seq<string>, e: Expansion, p: Placeholder): (r: Expansion)
    requires |e.contents| == |names| && p.whole != []
    ensures |r.contents| == |names|
  {
    var call := Fields(p.inner);
    match FirstNamed(names, call.name)
      case None => e
      case Some(i) =>
        var text := Substitute(e.contents[i], call.args, |call.args|);
        Expansion(ReplaceAll(e.content, p.whole, text), e.contents[i := text])
  }

  /** Every placeholder has a text to look for. */
  predicate Searchable(ps: seq<Placeholder>) {
    forall k :: 0 <= k < |ps| ==> ps[k].whole != []
  }

  lemma SearchablePrefix(ps: seq<Placeholder>, m: nat)
    requires Searchable(ps) && m <= |ps|
    ensures Searchable(ps[..m])
  {
  }

  /** The placeholders handled in order. */
  function ExpandAll(names: seq<string>, e: Expansion, ps: seq<Placeholder>): (r: Expansion)
    requires |e.contents| == |names|
    requires Searchable(ps)
    ensures |r.contents| == |names|
    decreases |ps|
  {
    if ps == [] then e
    else ExpandOne(names, ExpandAll(names, e, ps[..|ps| - 1]), ps[|ps| - 1])
  }

  /** `ParseTemplates` as a function of the content and the templates' names and contents:
      the placeholder list comes from the original content only. */
  function Expand(names: seq<string>, content: string, contents: seq<string>): (r: Expansion)
    requires |contents| == |names|
    ensures |r.contents| == |names|
  {
    ScanWellFormed(content, 0);
    ExpandAll(names, Expansion(content, contents), Scan(content, 0))
  }

  /** Content with no placeholder is unchanged, and so are the templates. */
  lemma NoPlaceholderUnchanged(names: seq<string>, content: string, contents: seq<string>)
    requires |contents| == |names|
    requires forall i :: 0 <= i < |content| - 1 ==> !(content[i] == '{' && content[i + 1] == '{')
    ensures Expand(names, content, contents) == Expansion(content, contents)
  {
    NoOpeningNoMatch(content, 0);
  }

  /** A placeholder whose name matches no template leaves the content and every template
      as they were. */
  lemma UnknownNameKept(names: seq<string>, e: Expansion, p: Placeholder)
    requires |e.contents| == |names| && p.whole != []
    requires Fields(p.inner).name !in names
    ensures ExpandOne(names, e, p) == e
  {
  }

  /** Only the first template of the given name is used and changed; every other template
      keeps its content. */
  lemma OnlyFirstTemplateChanges(names: seq<string>, e: Expansion, p: Placeholder, j: nat)
    requires |e.contents| == |names| && p.whole != []
    requires j < |names|
    requires names[j] != Fields(p.inner).name || exists k :: 0 <= k < j && names[k] == names[j]
    ensures ExpandOne(names, e, p).contents[j] == e.contents[j]
  {
    match FirstNamed(names, Fields(p.inner).name)
      case None =>
      case Some(i) =>
        assert i != j;
  }

  /** A placeholder without arguments is replaced by the template's content as it stands,
      at every occurrence, and the template is not changed. */
  lemma PlainPlaceholder(names: seq<string>, e: Expansion, p: Placeholder, i: nat)
    requires |e.contents| == |names| && p.whole != []
    requires Fields(p.inner).args == []
    requires FirstNamed(names, Fields(p.inner).name) == Some(i)
    ensures ExpandOne(names, e, p) == Expansion(ReplaceAll(e.content, p.whole, e.contents[i]), e.contents)
  {
    assert e.contents[i := e.contents[i]] == e.contents;
  }

  /** Expanding a placeholder that no longer occurs in the content still substitutes the
      arguments into the template: the change to the template is independent of whether
      the content shows the placeholder. */
  lemma TemplateChangedEvenIfAbsent(names: seq<string>, e: Expansion, p: Placeholder, i: nat)
    requires |e.contents| == |names| && p.whole != []
    requires FirstNamed(names, Fields(p.inner).name) == Some(i)
    requires forall k :: 0 <= k <= |e.content| ==> !OccursAt(e.content, p.whole, k)
    ensures ExpandOne(names, e, p).content == e.content
    ensures ExpandOne(names, e, p).contents[i]
         == Substitute(e.contents[i], Fields(p.inner).args, |Fields(p.inner).args|)
  {
    var call := Fields(p.inner);
    ReplaceAbsent(e.content, p.whole, Substitute(e.contents[i], call.args, |call.args|));
  }

  /** `Template`: a name and content held by reference, so that expansion can rewrite it. */
  class Template {
    const name: string
    var content: string

    constructor(name: string, content: string)
      ensures this.name == name && this.content == content
    {
      this.name := name;
      this.content := content;
    }
  }

  function Names(ts: seq<Template>): (names: seq<string>)
    ensures |names| == |ts| && forall i :: 0 <= i < |ts| ==> names[i] == ts[i].name
  {
    if ts == [] then [] else [ts[0].name] + Names(ts[1..])
  }

  function Contents(ts: seq<Template>): (contents: seq<string>)
    reads ts
    ensures |contents| == |ts| && forall i :: 0 <= i < |ts| ==> contents[i] == ts[i].content
  {
    if ts == [] then [] else [ts[0].content] + Contents(ts[1..])
  }

  /** The inner search of `ParseTemplates`: the position of the first template called
      `name`, or |templates| when there is none. */
  method FindTemplate(templates: seq<Template>, name: string) returns (t: nat)
    ensures t <= |templates|
    ensures t < |templates| <==> FirstNamed(Names(templates), name).Some?
    ensures t < |templates| ==> FirstNamed(Names(templates), name) == Some(t)
  {
    t := 0;
    while t < |templates| && templates[t].name != name
      invariant t <= |templates|
      invariant forall j :: 0 <= j < t ==> templates[j].name != name
    {
      t := t + 1;
    }
    FirstNamedAt(Names(templates), name, t);
  }

  /** The first position of `name` is the one a left-to-right search stops at. */
  lemma FirstNamedAt(names: seq<string>, name: string, t: nat)
    requires t <= |names| && forall j :: 0 <= j < t ==> names[j] != name
    requires t < |names| ==> names[t] == name
    ensures t < |names| <==> FirstNamed(names, name).Some?
    ensures t < |names| ==> FirstNamed(names, name) == Some(t)
  {
    if t == |names| {
      assert name !in names;
    }
  }

  /** The substitution loop: `$1`, `$2`, ... replaced one after the other in the
      template's own content. */
  method SubstituteInto(template: Template, args: seq<string>)
    modifies template
    ensures template.content == Substitute(old(template.content), args, |args|)
  {
    ghost var text := template.content;
    for k := 0 to |args|
      invariant template.content == Substitute(text, args, k)
    {
      template.content := ReplaceAll(template.content, Dollar(k + 1), TrimSpace(args[k]));
    }
  }

  lemma ExpandOneFound(names: seq<string>, e: Expansion, p: Placeholder, t: nat)
    requires |e.contents| == |names| && p.whole != []
    requires FirstNamed(names, Fields(p.inner).name) == Some(t)
    ensures var call := Fields(p.inner);
            var text := Substitute(e.contents[t], call.args, |call.args|);
            ExpandOne(names, e, p) == Expansion(ReplaceAll(e.content, p.whole, text), e.contents[t := text])
  {
  }

  lemma UpdatedAt(after: seq<string>, before: seq<string>, t: nat, text: string)
    requires |after| == |before| && t < |before| && after[t] == text
    requires forall j :: 0 <= j < |before| && j != t ==> after[j] == before[j]
    ensures after == before[t := text]
  {
  }

  /** One iteration of the outer loop of `ParseTemplates`: the placeholder `p` handled
      against the current content and the templates. */
  method ExpandStep(content: string, templates: seq<Template>, p: Placeholder)
      returns (result: string)
    requires forall i, j :: 0 <= i < j < |templates| ==> templates[i] != templates[j]
    requires p.whole != []
    modifies templates
    ensures Expansion(result, Contents(templates))
         == ExpandOne(Names(templates), Expansion(content, old(Contents(templates))), p)
  {
    var call := Fields(p.inner);
    var t := FindTemplate(templates, call.name);
    ghost var names := Names(templates);
    ghost var before := Contents(templates);
    if t < |templates| {
      ghost var text := Substitute(before[t], call.args, |call.args|);
      SubstituteInto(templates[t], call.args);
      result := ReplaceAll(content, p.whole, templates[t].content);
      ghost var after := Contents(templates);
      forall j | 0 <= j < |templates| && j != t
        ensures after[j] == before[j]
      {
        assert templates[j] != templates[t];
      }
      UpdatedAt(after, before, t, text);
      ExpandOneFound(names, Expansion(content, before), p, t);
    } else {
      result := content;
      assert FirstNamed(names, call.name) == None;
    }
  }

  /** `ParseTemplates(&content, templates)`: returns the new content and rewrites the used
      templates' contents in place. The templates are distinct objects, as the loader
      creates one per template file. */
  method ParseTemplates(content: string, templates: seq<Template>) returns (result: string)
    requires forall i, j :: 0 <= i < j < |templates| ==> templates[i] != templates[j]
    modifies templates
    ensures Expansion(result, Contents(templates))
         == Expand(Names(templates), content, old(Contents(templates)))
  {
    ghost var names := Names(templates);
    ghost var start := Expansion(content, Contents(templates));
    var matches := Scan(content, 0);
    ScanWellFormed(content, 0);
    assert Searchable(matches);
    result := content;
    for m := 0 to |matches|
      invariant Searchable(matches[..m])
      invariant Expansion(result, Contents(templates)) == ExpandAll(names, start, matches[..m])
    {
      assert matches[..m + 1][..m] == matches[..m];
      SearchablePrefix(matches, m + 1);
      result := ExpandStep(result, templates, matches[m]);
    }
    assert matches[..|matches|] == matches;
    assert Expand(names, content, start.contents) == ExpandAll(names, start, matches);
  }
}

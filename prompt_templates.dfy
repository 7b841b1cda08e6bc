/** The prompt-template service: looking templates up by id and by type,
    rendering a template by replacing each `{{key}}` placeholder, and the
    estimated token usage. The service works on its template list, which is
    a parameter here. */
module PromptTemplates {
  import opened Common

  datatype TemplateType = Ui | Search | Code | Inspiration | Batch

  datatype PromptTemplate = PromptTemplate(
    id: string,
    name: string,
    description: string,
    template: string,
    variables: seq<string>,
    kind: TemplateType,
    estimatedTokens: nat)

  function HasId(id: string): PromptTemplate -> bool {
    (t: PromptTemplate) => t.id == id
  }

  /** `getTemplate`: the first template with that id, or nothing. */
  function GetTemplate(templates: seq<PromptTemplate>, id: string): (r: Option<PromptTemplate>)
    ensures r.Some? ==> r.value in templates && r.value.id == id
    ensures r.Some? ==> exists i :: 0 <= i < |templates| && templates[i] == r.value &&
                                  forall j :: 0 <= j < i ==> templates[j].id != id
    ensures r.None? <==> forall t :: t in templates ==> t.id != id
  {
    var i := FindIndex(templates, HasId(id));
    if i < 0 then None else Some(templates[i])
  }

  /** `getTemplatesByType`: the templates of that type, in their order. */
  function TemplatesByType(templates: seq<PromptTemplate>, kind: TemplateType): (r: seq<PromptTemplate>)
    ensures forall t :: t in r <==> t in templates && t.kind == kind
    ensures |r| == Count(templates, (t: PromptTemplate) => t.kind == kind)
  {
    Filter(templates, (t: PromptTemplate) => t.kind == kind)
  }

  /** The filter keeps the order of the list: a template of the type sits
      between those of the type before it and those after it. */
  lemma TemplatesByTypeOrder(a: seq<PromptTemplate>, t: PromptTemplate, b: seq<PromptTemplate>)
    ensures TemplatesByType(a + [t] + b, t.kind) ==
      TemplatesByType(a, t.kind) + [t] + TemplatesByType(b, t.kind)
  {
    var p := (x: PromptTemplate) => x.kind == t.kind;
    FilterAppend(a + [t], b, p);
    FilterAppend(a, [t], p);
    assert Filter([t], p) == [t] by {
      assert [t][1..] == [];
    }
  }

  /** `estimateTokenUsage`: the template's estimate, or 0 for an unknown id. */
  function EstimateTokenUsage(templates: seq<PromptTemplate>, id: string): (n: nat)
    ensures (forall t :: t in templates ==> t.id != id) ==> n == 0
    ensures GetTemplate(templates, id).Some? ==> n == GetTemplate(templates, id).value.estimatedTokens
  {
    var t := GetTemplate(templates, id);
    if t.Some? then t.value.estimatedTokens else 0
  }

  // ---------------------------------------------------------------------
  // Placeholder replacement

  /** `{{key}}`. */
  function Placeholder(key: string): string { "{{" + key + "}}" }

  /** A key without braces (keys are plain identifiers). */
  predicate BraceFree(key: string) {
    forall i :: 0 <= i < |key| ==> key[i] != '{' && key[i] != '}'
  }

  lemma PlaceholderChars(key: string)
    ensures var p := Placeholder(key);
      |p| == |key| + 4 && p[0] == '{' && p[1] == '{' && p[|p| - 2] == '}' && p[|p| - 1] == '}' &&
      forall j :: 2 <= j < |p| - 2 ==> p[j] == key[j - 2]
  {
  }

  /** `s.replace(/pattern/g, value)` for a pattern without metacharacters
      and a value inserted as written: scan from the left and replace each
      occurrence not overlapping an earlier one. `ReplaceGlobal` below adds
      the replacement patterns a value with `$` brings in. */
  function ReplaceAll(s: string, pattern: string, value: string): (r: string)
    requires |pattern| > 0
    ensures !Contains(s, pattern) ==> r == s
    decreases |s|
  {
    if StartsWith(s, pattern) then
      value + ReplaceAll(s[|pattern|..], pattern, value)
    else if s == [] then
      []
    else
      var rest := ReplaceAll(s[1..], pattern, value);
      assert !Contains(s, pattern) ==> !Contains(s[1..], pattern) by {
        OccursShift(s, pattern);
      }
      [s[0]] + rest
  }

  /** No occurrence of the pattern begins in a and ends in b. */
  predicate NoStraddle(a: string, b: string, pattern: string) {
    forall i :: 0 <= i < |a| < i + |pattern| ==> !OccursAt(a + b, pattern, i)
  }

  lemma OccursAtSuffix(x: string, p: string, k: nat, i: int)
    requires k <= |x| && i >= 0
    ensures OccursAt(x[k..], p, i) <==> OccursAt(x, p, i + k)
  {
    if i + |p| <= |x| - k {
      assert x[k..][i..i + |p|] == x[i + k..i + k + |p|];
    }
  }

  /** Replacing in a concatenation replaces in each part when no
      occurrence straddles the boundary. */
  lemma {:induction false} ReplaceAllConcat(a: string, b: string, pattern: string, value: string)
    requires |pattern| > 0 && NoStraddle(a, b, pattern)
    ensures ReplaceAll(a + b, pattern, value) == ReplaceAll(a, pattern, value) + ReplaceAll(b, pattern, value)
    decreases |a|
  {
    if a == [] {
      assert a + b == b;
    } else {
      StepAgrees(a, b, pattern, value);
      var y := ReplaceAll(b, pattern, value);
      if StartsWith(a + b, pattern) {
        NoStraddleSuffix(a, b, pattern, |pattern|);
        ReplaceAllConcat(a[|pattern|..], b, pattern, value);
        Assoc(value, ReplaceAll(a[|pattern|..], pattern, value), y);
      } else {
        NoStraddleSuffix(a, b, pattern, 1);
        ReplaceAllConcat(a[1..], b, pattern, value);
        Assoc([a[0]], ReplaceAll(a[1..], pattern, value), y);
      }
    }
  }

  /** One scan step over a + b is the same step over a. */
  lemma StepAgrees(a: string, b: string, pattern: string, value: string)
    requires |pattern| > 0 && a != [] && NoStraddle(a, b, pattern)
    ensures StartsWith(a + b, pattern) ==>
      |pattern| <= |a| &&
      ReplaceAll(a + b, pattern, value) == value + ReplaceAll(a[|pattern|..] + b, pattern, value) &&
      ReplaceAll(a, pattern, value) == value + ReplaceAll(a[|pattern|..], pattern, value)
    ensures !StartsWith(a + b, pattern) ==>
      ReplaceAll(a + b, pattern, value) == [a[0]] + ReplaceAll(a[1..] + b, pattern, value) &&
      ReplaceAll(a, pattern, value) == [a[0]] + ReplaceAll(a[1..], pattern, value)
  {
    var s := a + b;
    if StartsWith(s, pattern) {
      assert OccursAt(s, pattern, 0);
      assert a[..|pattern|] == s[..|pattern|];
      assert s[|pattern|..] == a[|pattern|..] + b;
    } else {
      if |pattern| <= |a| {
        assert a[..|pattern|] == s[..|pattern|];
      }
      assert s[1..] == a[1..] + b;
    }
  }

  lemma NoStraddleSuffix(a: string, b: string, pattern: string, k: nat)
    requires k <= |a| && NoStraddle(a, b, pattern)
    ensures NoStraddle(a[k..], b, pattern)
  {
    var s := a + b;
    assert s[k..] == a[k..] + b;
    forall i | 0 <= i < |a[k..]| < i + |pattern| ensures !OccursAt(a[k..] + b, pattern, i) {
      OccursAtSuffix(s, pattern, k, i);
    }
  }

  /** In a placeholder of a brace-free key the opening braces are the
      first two characters and the closing braces the last two. */
  lemma BracePositions(key: string)
    requires BraceFree(key)
    ensures var p := Placeholder(key);
      forall j :: 0 <= j < |p| && p[j] == '{' ==> j <= 1
    ensures var p := Placeholder(key);
      forall j :: 0 <= j < |p| && p[j] == '}' ==> j >= |p| - 2
  {
    PlaceholderChars(key);
  }

  /** No placeholder of a brace-free key begins before another
      placeholder and runs into it. */
  lemma NoStraddleBefore(a: string, rest: string, key: string, other: string)
    requires BraceFree(key) && BraceFree(other)
    requires StartsWith(rest, Placeholder(other))
    ensures NoStraddle(a, rest, Placeholder(key))
  {
    var p := Placeholder(key);
    var q := Placeholder(other);
    PlaceholderChars(key);
    PlaceholderChars(other);
    BracePositions(key);
    forall i | 0 <= i < |a| < i + |p| ensures !OccursAt(a + rest, p, i) {
      var s := a + rest;
      var j := |a| - i;
      assert s[|a|] == q[0] && s[|a| + 1] == q[1];
      OccurrenceChar(s, p, i, j);
      if j + 1 < |p| {
        OccurrenceChar(s, p, i, j + 1);
      }
    }
  }

  /** No placeholder of a different brace-free key begins inside a
      placeholder, whatever follows it. */
  lemma NoStraddleAfter(other: string, b: string, key: string)
    requires BraceFree(key) && BraceFree(other) && key != other
    ensures NoStraddle(Placeholder(other), b, Placeholder(key))
    ensures !Contains(Placeholder(other), Placeholder(key))
  {
    var p := Placeholder(key);
    var q := Placeholder(other);
    PlaceholderChars(key);
    PlaceholderChars(other);
    BracePositions(key);
    BracePositions(other);
    assert p[2..|p| - 2] == key && q[2..|q| - 2] == other;
    forall i | 0 <= i < |q| ensures !OccursAt(q + b, p, i) {
      var s := q + b;
      assert s[..|q|] == q;
      assert s[i] == q[i];
      assert i + 1 < |q| ==> s[i + 1] == q[i + 1];
      OccurrenceChar(s, p, i, 0);
      OccurrenceChar(s, p, i, 1);
      if |p| < |q| {
        OccurrenceChar(s, p, i, |p| - 2);
        assert s[|p| - 2] == q[|p| - 2];
      } else if |p| > |q| {
        OccurrenceChar(s, p, i, |q| - 2);
        assert s[|q| - 2] == q[|q| - 2];
      }
    }
    forall i ensures !OccursAt(q, p, i) {
      OccursInPrefix(q, b, p, i);
    }
  }

  /** The characters of an occurrence are those of the pattern. */
  lemma OccurrenceChar(s: string, p: string, i: int, j: int)
    requires 0 <= j < |p|
    ensures OccursAt(s, p, i) ==> s[i + j] == p[j]
  {
    if OccursAt(s, p, i) {
      assert s[i..i + |p|][j] == s[i + j];
    }
  }

  lemma OccursInPrefix(x: string, y: string, p: string, i: int)
    ensures OccursAt(x, p, i) ==> OccursAt(x + y, p, i)
  {
    if OccursAt(x, p, i) {
      assert (x + y)[i..i + |p|] == x[i..i + |p|];
    }
  }

  /** A placeholder of a key other than the replaced one survives the
      replacement. */
  lemma PlaceholderSurvives(a: string, b: string, key: string, other: string, value: string)
    requires BraceFree(key) && BraceFree(other) && key != other
    ensures ReplaceAll(a + Placeholder(other) + b, Placeholder(key), value) ==
      ReplaceAll(a, Placeholder(key), value) + Placeholder(other) + ReplaceAll(b, Placeholder(key), value)
  {
    var p := Placeholder(key);
    var q := Placeholder(other);
    assert StartsWith(q + b, q);
    NoStraddleBefore(a, q + b, key, other);
    assert a + q + b == a + (q + b);
    ReplaceAllConcat(a, q + b, p, value);
    NoStraddleAfter(other, b, key);
    ReplaceAllConcat(q, b, p, value);
  }

  /** Every placeholder of the key is replaced by the value: text around
      it is scanned on its own. */
  lemma PlaceholderReplaced(a: string, b: string, key: string, value: string)
    requires BraceFree(key)
    ensures ReplaceAll(a + Placeholder(key) + b, Placeholder(key), value) ==
      ReplaceAll(a, Placeholder(key), value) + value + ReplaceAll(b, Placeholder(key), value)
  {
    var p := Placeholder(key);
    assert StartsWith(p + b, p);
    NoStraddleBefore(a, p + b, key, key);
    assert a + p + b == a + (p + b);
    ReplaceAllConcat(a, p + b, p, value);
    assert (p + b)[|p|..] == b;
  }

  // ---------------------------------------------------------------------
  // Replacement patterns

  /** A value without `$`, which `replace` inserts as written. */
  predicate Literal(value: string) {
    forall i :: 0 <= i < |value| ==> value[i] != '$'
  }

  /** The text `replace` inserts for one match of a pattern without capture
      groups (the GetSubstitution operation of ECMA-262): `$$` is a dollar,
      `$&` the match, `` $` `` the text before the match and `$'` the text
      after it. Every other `$` is kept as written, `$1` and `$<` included,
      since the pattern has no groups. */
  function Expand(value: string, before: string, matched: string, after: string): (r: string)
    ensures Literal(value) ==> r == value
    decreases |value|
  {
    if value == [] then []
    else if value[0] == '$' && |value| >= 2 && value[1] in "$&`'" then
      (if value[1] == '$' then "$" else if value[1] == '&' then matched else if value[1] == '`' then before else after)
      + Expand(value[2..], before, matched, after)
    else
      assert Literal(value) ==> Literal(value[1..]) by {
        assert forall i :: 0 <= i < |value| - 1 ==> value[1..][i] == value[i + 1];
      }
      [value[0]] + Expand(value[1..], before, matched, after)
  }

  /** The scan of `replace` with the `g` flag from position i of s: each
      occurrence not overlapping an earlier one becomes the expansion of the
      value in the context of the whole text. */
  function ReplaceFrom(s: string, i: nat, pattern: string, value: string): string
    requires |pattern| > 0 && i <= |s|
    decreases |s| - i
  {
    if OccursAt(s, pattern, i) then
      Expand(value, s[..i], pattern, s[i + |pattern|..]) + ReplaceFrom(s, i + |pattern|, pattern, value)
    else if i == |s| then
      []
    else
      [s[i]] + ReplaceFrom(s, i + 1, pattern, value)
  }

  /** `s.replace(new RegExp(pattern, 'g'), value)` for a pattern without
      metacharacters. */
  function ReplaceGlobal(s: string, pattern: string, value: string): string
    requires |pattern| > 0
  {
    ReplaceFrom(s, 0, pattern, value)
  }

  /** With a literal value the scan from position i is ReplaceAll of the
      rest of the text. */
  lemma {:induction false} ReplaceFromLiteral(s: string, i: nat, pattern: string, value: string)
    requires |pattern| > 0 && i <= |s| && Literal(value)
    ensures ReplaceFrom(s, i, pattern, value) == ReplaceAll(s[i..], pattern, value)
    decreases |s| - i
  {
    if OccursAt(s, pattern, i) {
      MatchStep(s, i, pattern, value);
      ReplaceFromLiteral(s, i + |pattern|, pattern, value);
    } else if i < |s| {
      SkipStep(s, i, pattern, value);
      ReplaceFromLiteral(s, i + 1, pattern, value);
    } else {
      assert s[i..] == [];
    }
  }

  /** One literal replacement at an occurrence, in both scans. */
  lemma MatchStep(s: string, i: nat, pattern: string, value: string)
    requires |pattern| > 0 && i <= |s| && Literal(value) && OccursAt(s, pattern, i)
    ensures ReplaceFrom(s, i, pattern, value) == value + ReplaceFrom(s, i + |pattern|, pattern, value)
    ensures ReplaceAll(s[i..], pattern, value) == value + ReplaceAll(s[i + |pattern|..], pattern, value)
  {
    var t := s[i..];
    StartsAt(s, pattern, i);
    assert t[|pattern|..] == s[i + |pattern|..];
  }

  /** One character passed over where nothing occurs, in both scans. */
  lemma SkipStep(s: string, i: nat, pattern: string, value: string)
    requires |pattern| > 0 && i < |s| && !OccursAt(s, pattern, i)
    ensures ReplaceFrom(s, i, pattern, value) == [s[i]] + ReplaceFrom(s, i + 1, pattern, value)
    ensures ReplaceAll(s[i..], pattern, value) == [s[i]] + ReplaceAll(s[i + 1..], pattern, value)
  {
    var t := s[i..];
    StartsAt(s, pattern, i);
    assert t[1..] == s[i + 1..] && t[0] == s[i];
  }

  /** The rest of s from i starts with p exactly when p occurs at i. */
  lemma StartsAt(s: string, p: string, i: nat)
    requires i <= |s|
    ensures StartsWith(s[i..], p) <==> OccursAt(s, p, i)
  {
    if i + |p| <= |s| {
      assert s[i..][..|p|] == s[i..i + |p|];
    }
  }

  /** A literal value makes `replace` the plain scan ReplaceAll. */
  lemma ReplaceGlobalLiteral(s: string, pattern: string, value: string)
    requires |pattern| > 0 && Literal(value)
    ensures ReplaceGlobal(s, pattern, value) == ReplaceAll(s, pattern, value)
  {
    ReplaceFromLiteral(s, 0, pattern, value);
    assert s[0..] == s;
  }

  /** Every placeholder of the key is replaced by a literal value, the text
      around it scanned on its own. */
  lemma GlobalPlaceholderReplaced(a: string, b: string, key: string, value: string)
    requires BraceFree(key) && Literal(value)
    ensures ReplaceGlobal(a + Placeholder(key) + b, Placeholder(key), value) ==
      ReplaceGlobal(a, Placeholder(key), value) + value + ReplaceGlobal(b, Placeholder(key), value)
  {
    var p := Placeholder(key);
    ReplaceGlobalLiteral(a + p + b, p, value);
    ReplaceGlobalLiteral(a, p, value);
    ReplaceGlobalLiteral(b, p, value);
    PlaceholderReplaced(a, b, key, value);
  }

  /** `$$` in a value inserts a single dollar. */
  lemma DollarDollarExample()
    ensures ReplaceGlobal("{{x}}", Placeholder("x"), "A$$B") == "A$B"
  {
    var s, p := "{{x}}", Placeholder("x");
    assert OccursAt(s, p, 0);
    assert Expand("A$$B", [], p, []) == "A$B" by {
      assert Expand("B", [], p, []) == "B" + Expand([], [], p, []);
      assert Expand("$$B", [], p, []) == "$" + Expand("B", [], p, []);
      assert Expand("A$$B", [], p, []) == "A" + Expand("$$B", [], p, []);
    }
    assert ReplaceFrom(s, 5, p, "A$$B") == [];
  }

  /** `$&` inserts the match itself, so the placeholder is still there. */
  lemma MatchPatternExample()
    ensures ReplaceGlobal("{{x}}", Placeholder("x"), "$&") == "{{x}}"
    ensures ReplaceAll("{{x}}", Placeholder("x"), "$&") == "$&"
  {
    var s, p := "{{x}}", Placeholder("x");
    assert OccursAt(s, p, 0);
    assert StartsWith(s, p);
    assert Expand("$&", [], p, []) == p + Expand([], [], p, []);
    assert ReplaceFrom(s, 5, p, "$&") == [];
    assert ReplaceAll(s[5..], p, "$&") == [];
  }

  // ---------------------------------------------------------------------
  // Rendering

  /** The variables in their entry order. */
  type Variables = seq<(string, string)>

  /** The replacements applied for the entries in order. */
  function ApplyAll(text: string, vars: Variables): string
    decreases |vars|
  {
    if vars == [] then text
    else ApplyAll(ReplaceAll(text, Placeholder(vars[0].0), vars[0].1), vars[1..])
  }

  /** The `replace` calls for the entries in order, replacement patterns
      included. */
  function Render(text: string, vars: Variables): string
    decreases |vars|
  {
    if vars == [] then text
    else Render(ReplaceGlobal(text, Placeholder(vars[0].0), vars[0].1), vars[1..])
  }

  predicate LiteralValues(vars: Variables) {
    forall i :: 0 <= i < |vars| ==> Literal(vars[i].1)
  }

  /** With literal values the rendering is the plain entry-by-entry scan. */
  lemma {:induction false} RenderLiteral(text: string, vars: Variables)
    requires LiteralValues(vars)
    ensures Render(text, vars) == ApplyAll(text, vars)
    decreases |vars|
  {
    if vars != [] {
      ReplaceGlobalLiteral(text, Placeholder(vars[0].0), vars[0].1);
      assert LiteralValues(vars[1..]) by {
        assert forall i :: 0 <= i < |vars| - 1 ==> vars[1..][i] == vars[i + 1];
      }
      RenderLiteral(ReplaceAll(text, Placeholder(vars[0].0), vars[0].1), vars[1..]);
    }
  }

  /** `renderTemplate`: an error for an unknown id, otherwise the template
      text with each entry's placeholder replaced in entry order. */
  method RenderTemplate(templates: seq<PromptTemplate>, id: string, vars: Variables) returns (r: Result<string>)
    ensures GetTemplate(templates, id).None? <==> r.Err?
    ensures r.Err? ==> r.message == "Template " + id + " not found"
    ensures r.Ok? ==> r.value == Render(GetTemplate(templates, id).value.template, vars)
    ensures r.Ok? && LiteralValues(vars) ==> r.value == ApplyAll(GetTemplate(templates, id).value.template, vars)
    ensures r.Ok? && vars == [] ==> r.value == GetTemplate(templates, id).value.template
  {
    var t := GetTemplate(templates, id);
    if t.None? {
      return Err("Template " + id + " not found");
    }
    var rendered := t.value.template;
    for i := 0 to |vars|
      invariant Render(rendered, vars[i..]) == Render(t.value.template, vars)
    {
      assert vars[i..][1..] == vars[i + 1..];
      rendered := ReplaceGlobal(rendered, Placeholder(vars[i].0), vars[i].1);
    }
    assert vars[|vars|..] == [];
    if LiteralValues(vars) {
      RenderLiteral(t.value.template, vars);
    }
    r := Ok(rendered);
  }

  /** A placeholder whose key has no entry is still in the rendered text. */
  lemma {:induction false} UnsuppliedPlaceholderRemains(text: string, vars: Variables, other: string)
    requires BraceFree(other)
    requires forall i :: 0 <= i < |vars| ==> BraceFree(vars[i].0) && vars[i].0 != other
    requires Contains(text, Placeholder(other))
    ensures Contains(ApplyAll(text, vars), Placeholder(other))
    decreases |vars|
  {
    if vars != [] {
      var q := Placeholder(other);
      var i :| OccursAt(text, q, i);
      var a, b := text[..i], text[i + |q|..];
      assert text == a + q + b;
      PlaceholderSurvives(a, b, vars[0].0, other, vars[0].1);
      var next := ReplaceAll(text, Placeholder(vars[0].0), vars[0].1);
      var ra := ReplaceAll(a, Placeholder(vars[0].0), vars[0].1);
      assert OccursAt(next, q, |ra|) by {
        assert next[|ra|..|ra| + |q|] == q;
      }
      UnsuppliedPlaceholderRemains(next, vars[1..], other);
    }
  }
}

/** The `${...}` autocompletion of parameter inputs: deciding from the text and
    the cursor whether a variable reference is being typed, filtering the
    registry by what has been typed so far, and splicing the chosen name in. */
module Autocomplete {
  import opened Wrappers
  import opened Text
  import opened Registry

  /** An open reference: the position of its `${` and the text typed after it. */
  datatype Query = Query(start: nat, searchText: string)

  /** `p` is the last `${` that fits before the cursor. */
  predicate LastOpening(value: string, cursor: nat, p: nat) {
    && p + 2 <= cursor
    && OccursAt(value, "${", p)
    && forall j: nat :: p < j && j + 2 <= cursor ==> !OccursAt(value, "${", j)
  }

  /** `handleInput`: the last `${` before the cursor, unless a `}` after it comes
      before the cursor; the query is the text between the two. */
  function FindQuery(value: string, cursor: nat): (r: Option<Query>)
    requires cursor <= |value|
    ensures r.Some? ==> r.value.start + 2 <= cursor && r.value.searchText == value[r.value.start + 2..cursor]
  {
    var beforeCursor := value[..cursor];
    match LastIndexOf(beforeCursor, "${")
    case None => None
    case Some(p) =>
      var closingBrace := IndexOf(value[p..], "}");
      if closingBrace.Some? && closingBrace.value < cursor - p then None
      else
        assert beforeCursor[p + 2..] == value[p + 2..cursor];
        Some(Query(p, beforeCursor[p + 2..]))
  }

  /** A `${` in the text before the cursor is one in the whole text that ends
      by the cursor. */
  lemma OpeningBeforeCursor(value: string, cursor: nat, j: nat)
    requires cursor <= |value|
    ensures OccursAt(value[..cursor], "${", j) <==> j + 2 <= cursor && OccursAt(value, "${", j)
  {
    if j + 2 <= cursor {
      assert value[..cursor][j..j + 2] == value[j..j + 2];
    }
  }

  /** The first `}` from the `${` at `p` comes before the cursor exactly when
      one lies between the two. */
  lemma ClosingBeforeCursor(value: string, cursor: nat, p: nat)
    requires p + 2 <= cursor <= |value| && OccursAt(value, "${", p)
    ensures var c := IndexOf(value[p..], "}");
            (c.Some? && c.value < cursor - p) <==> '}' in value[p + 2..cursor]
  {
    var after := value[p..];
    var c := IndexOf(after, "}");
    assert value[p] == '$' && value[p + 1] == '{' by {
      assert value[p..p + 2] == "${";
    }
    if c.Some? && c.value < cursor - p {
      var k := c.value;
      assert after[k..k + 1] == "}";
      assert value[p + k] == '}';
      assert k >= 2;
      assert value[p + 2..cursor][k - 2] == '}';
    }
    if '}' in value[p + 2..cursor] {
      var i :| 0 <= i < cursor - p - 2 && value[p + 2..cursor][i] == '}';
      assert after[i + 2..i + 3] == "}";
      assert OccursAt(after, "}", i + 2);
    }
  }

  /** Suggestions are offered exactly when there is a `${` before the cursor
      and no `}` between the last such `${` and the cursor; the query is the
      text between them. */
  lemma FindQueryExact(value: string, cursor: nat, p: nat)
    requires cursor <= |value| && LastOpening(value, cursor, p)
    ensures FindQuery(value, cursor) == if '}' in value[p + 2..cursor] then None else Some(Query(p, value[p + 2..cursor]))
  {
    var beforeCursor := value[..cursor];
    OpeningBeforeCursor(value, cursor, p);
    assert OccursAt(beforeCursor, "${", p);
    var last := LastIndexOf(beforeCursor, "${");
    OpeningBeforeCursor(value, cursor, last.value);
    assert last == Some(p);
    ClosingBeforeCursor(value, cursor, p);
  }

  /** Without a `${` before the cursor nothing is offered. */
  lemma FindQueryNoOpening(value: string, cursor: nat)
    requires cursor <= |value|
    requires forall j: nat :: j + 2 <= cursor ==> !OccursAt(value, "${", j)
    ensures FindQuery(value, cursor) == None
  {
    var last := LastIndexOf(value[..cursor], "${");
    if last.Some? {
      OpeningBeforeCursor(value, cursor, last.value);
    }
  }

  // ---------------------------------------------------------------- the filter

  /** `v.name.toLowerCase().includes(searchText.toLowerCase())`. */
  predicate Matches(v: Var, searchText: string) {
    Includes(ToLower(v.name), ToLower(searchText))
  }

  /** `xs` is `ys` with some elements left out, the rest in their order. */
  predicate SubsequenceOf<T(==)>(xs: seq<T>, ys: seq<T>)
    decreases |ys|
  {
    if xs == [] then true
    else if ys == [] then false
    else if xs[|xs| - 1] == ys[|ys| - 1] then SubsequenceOf(xs[..|xs| - 1], ys[..|ys| - 1])
    else SubsequenceOf(xs, ys[..|ys| - 1])
  }

  /** `allDefinedVariables.filter(...)`: the matching variables, in registry
      order. */
  function Suggestions(vars: seq<Var>, searchText: string): (r: seq<Var>)
    ensures |r| <= |vars|
    ensures forall v :: v in r <==> v in vars && Matches(v, searchText)
    ensures SubsequenceOf(r, vars)
    decreases |vars|
  {
    if vars == [] then []
    else
      var rest := Suggestions(vars[..|vars| - 1], searchText);
      var last := vars[|vars| - 1];
      assert vars == vars[..|vars| - 1] + [last];
      if Matches(last, searchText) then
        assert (rest + [last])[..|rest + [last]| - 1] == rest;
        rest + [last]
      else
        assert rest != [] ==> rest[|rest| - 1] in rest;
        rest
  }

  /** Right after `${` every variable is offered. */
  lemma {:induction false} SuggestionsEmptyQuery(vars: seq<Var>)
    ensures Suggestions(vars, "") == vars
    decreases |vars|
  {
    if vars != [] {
      var last := vars[|vars| - 1];
      assert OccursAt(ToLower(last.name), "", 0);
      SuggestionsEmptyQuery(vars[..|vars| - 1]);
      assert vars == vars[..|vars| - 1] + [last];
    }
  }

  lemma ToLowerIdempotent(s: string)
    ensures ToLower(ToLower(s)) == ToLower(s)
  {
  }

  /** The match ignores ASCII case on both sides. */
  lemma MatchesIgnoresCase(v: Var, searchText: string)
    ensures Matches(v, searchText) <==> Matches(v, ToLower(searchText))
    ensures Matches(v, searchText) <==> Matches(v.(name := ToLower(v.name)), searchText)
  {
    ToLowerIdempotent(searchText);
    ToLowerIdempotent(v.name);
  }

  // ---------------------------------------------------------------- accepting

  /** An index given to `substring`, clamped to the string. */
  function Clamp(i: int, len: nat): (r: nat)
    ensures r <= len
    ensures 0 <= i <= len ==> r == i
  {
    if i < 0 then 0 else if i > len then len else i
  }

  /** The input's new text and cursor. */
  datatype Accepted = Accepted(value: string, cursor: nat)

  /** The click handler of a suggestion: cut `${` and the query out before the
      remembered cursor, splice in `${name}`, and put the cursor after it. */
  function Accept(value: string, lastCursorPos: nat, lastSearchText: string, varName: string): Accepted {
    var beforeCursor := value[..Clamp(lastCursorPos - |lastSearchText| - 2, |value|)];
    var afterCursor := value[Clamp(lastCursorPos, |value|)..];
    Accepted(beforeCursor + "${" + varName + "}" + afterCursor, |beforeCursor| + |varName| + 3)
  }

  /** Accepting a suggestion for the query found at the cursor replaces the
      `${` and the query by `${name}` and leaves the cursor just after the
      closing brace. */
  lemma AcceptSplices(value: string, cursor: nat, name: string)
    requires cursor <= |value| && FindQuery(value, cursor).Some?
    ensures var p := FindQuery(value, cursor).value.start;
            Accept(value, cursor, FindQuery(value, cursor).value.searchText, name)
            == Accepted(value[..p] + "${" + name + "}" + value[cursor..], p + |name| + 3)
  {
  }

  /** After accepting, the reference is closed: no suggestions are offered at
      the new cursor. */
  lemma AcceptCloses(value: string, cursor: nat, name: string)
    requires cursor <= |value| && FindQuery(value, cursor).Some?
    ensures var q := FindQuery(value, cursor).value;
            var a := Accept(value, cursor, q.searchText, name);
            a.cursor <= |a.value| && FindQuery(a.value, a.cursor) == None
  {
    var q := FindQuery(value, cursor).value;
    var p := q.start;
    AcceptSplices(value, cursor, name);
    var a := Accept(value, cursor, q.searchText, name);
    var s := a.value;
    var n := a.cursor;
    var brace := p + 2 + |name|;
    assert s[p..p + 2] == "${";
    assert s[brace] == '}';
    var last := LastIndexOf(s[..n], "${");
    assert OccursAt(s[..n], "${", p) by {
      assert s[..n][p..p + 2] == s[p..p + 2];
    }
    var l := last.value;
    OpeningBeforeCursor(s, n, l);
    assert !OccursAt(s, "${", brace - 1) by {
      assert s[brace - 1..brace + 1][1] == s[brace];
    }
    assert l <= p + |name|;
    FindQueryExact(s, n, l) by {
      forall j: nat | l < j && j + 2 <= n ensures !OccursAt(s, "${", j) {
        OpeningBeforeCursor(s, n, j);
      }
    }
    assert s[l + 2..n][brace - l - 2] == '}';
  }
}

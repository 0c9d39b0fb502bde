/** The variable registry behind `${...}` autocompletion: the variables a case
    defines, found in variable-list components (`vars` / `varDescriptions`
    strings) and in `saveAs` marks on response-validation trees, deduplicated
    first-wins; the incremental update made when one `saveAs` is edited; and the
    serialiser that writes a variable-list form back into its two strings. */
module Registry {
  import opened Wrappers
  import opened Text
  import opened JsonValue
  import opened CaseModel

  datatype Var = Var(name: string, description: string)

  /** No two entries share a name. */
  predicate Distinct(vs: seq<Var>) {
    forall i, j :: 0 <= i < j < |vs| ==> vs[i].name != vs[j].name
  }

  function Names(vs: seq<Var>): set<string> {
    set i | 0 <= i < |vs| :: vs[i].name
  }

  lemma NamesSnoc(vs: seq<Var>)
    requires vs != []
    ensures Names(vs) == Names(vs[..|vs| - 1]) + {vs[|vs| - 1].name}
  {
    var p := vs[..|vs| - 1];
    forall n | n in Names(vs) ensures n in Names(p) + {vs[|vs| - 1].name} {
      var i :| 0 <= i < |vs| && vs[i].name == n;
      if i < |p| { assert p[i] == vs[i]; }
    }
    forall n | n in Names(p) ensures n in Names(vs) {
      var i :| 0 <= i < |p| && p[i].name == n;
      assert vs[i] == p[i];
    }
  }

  /** Appends two partial results; `None` is an exception that ends the scan. */
  function AppendOpt(a: Option<seq<Var>>, b: Option<seq<Var>>): (r: Option<seq<Var>>)
    ensures r.Some? <==> a.Some? && b.Some?
    ensures r.Some? ==> r.value == a.value + b.value
  {
    if a.Some? && b.Some? then Some(a.value + b.value) else None
  }

  // ---------------------------------------------------------------- parseVariables

  datatype ParsedVariable = ParsedVariable(name: string, value: string)

  /** `pair.split('=').map(s => s.trim())`, then the first two pieces. */
  function ParsePair(pair: string): (v: ParsedVariable)
    ensures Trimmed(v.name) && Trimmed(v.value)
  {
    var parts := Split(pair, '=');
    ParsedVariable(Trim(parts[0]), Trim(Piece(parts, 1)))
  }

  /** `.filter(p => p.trim())`. */
  function NonBlank(pieces: seq<string>): (r: seq<string>)
    ensures forall i :: 0 <= i < |r| ==> !Blank(r[i])
    ensures forall i :: 0 <= i < |r| ==> r[i] in pieces
    decreases |pieces|
  {
    if pieces == [] then []
    else if Blank(pieces[0]) then NonBlank(pieces[1..])
    else [pieces[0]] + NonBlank(pieces[1..])
  }

  lemma {:induction false} NonBlankKeepsAll(pieces: seq<string>)
    requires forall i :: 0 <= i < |pieces| ==> !Blank(pieces[i])
    ensures NonBlank(pieces) == pieces
    decreases |pieces|
  {
    if pieces != [] {
      NonBlankKeepsAll(pieces[1..]);
    }
  }

  function ParsePairs(pieces: seq<string>): (r: seq<ParsedVariable>)
    ensures |r| == |pieces|
  {
    seq(|pieces|, i requires 0 <= i < |pieces| => ParsePair(pieces[i]))
  }

  /** `parseVariables("A=1;B=2")`: the non-blank `;`-pieces, each split at `=`
      into a trimmed name and value. */
  function ParseVariables(s: string): (r: seq<ParsedVariable>)
    ensures forall i :: 0 <= i < |r| ==> Trimmed(r[i].name) && Trimmed(r[i].value)
    ensures s == "" ==> r == []
  {
    if s == "" then [] else ParsePairs(NonBlank(Split(s, ';')))
  }

  // ---------------------------------------------------------------- the variable-list form

  /** One row of the variable-list form, as typed. */
  datatype VariableRow = VariableRow(name: string, value: string, description: string)

  /** The trimmed name with `My_` put in front when it is missing. */
  function RowName(raw: string): (n: string)
    ensures n == [] <==> Blank(raw)
    ensures n != [] ==> StartsWith(n, "My_") && Trimmed(n)
  {
    var n := Trim(raw);
    if n != [] && !StartsWith(n, "My_") then
      assert ("My_" + n)[..3] == "My_";
      TrimmedPrefixed("My_", n);
      "My_" + n
    else n
  }

  /** Writing a name again never adds a second prefix. */
  lemma RowNameIdempotent(raw: string)
    ensures RowName(RowName(raw)) == RowName(raw)
  {
  }

  /** A row is written out exactly when its name and its value are non-blank. */
  predicate Kept(r: VariableRow) {
    RowName(r.name) != [] && Trim(r.value) != []
  }

  /** A written pair: a `My_`-prefixed trimmed name and a trimmed value, both
      non-empty. */
  predicate WellEmitted(v: ParsedVariable) {
    && v.name != [] && Trimmed(v.name) && StartsWith(v.name, "My_")
    && v.value != [] && Trimmed(v.value)
  }

  /** The pair a row contributes, if it is kept. */
  function EmittedRow(row: VariableRow): (r: seq<ParsedVariable>)
    ensures |r| <= 1
    ensures forall i :: 0 <= i < |r| ==> WellEmitted(r[i])
  {
    if Kept(row) then [ParsedVariable(RowName(row.name), Trim(row.value))] else []
  }

  /** The `NAME=VALUE` pairs the form writes, in row order. */
  function EmittedVariables(rows: seq<VariableRow>): (r: seq<ParsedVariable>)
    ensures |r| <= |rows|
    ensures forall i :: 0 <= i < |r| ==> WellEmitted(r[i])
    decreases |rows|
  {
    if rows == [] then []
    else EmittedVariables(rows[..|rows| - 1]) + EmittedRow(rows[|rows| - 1])
  }

  /** The description pair a row contributes: a kept row with a non-blank
      description. */
  function DescribedRow(row: VariableRow): (r: seq<(string, string)>)
    ensures |r| <= 1
  {
    if Kept(row) && Trim(row.description) != [] then [(RowName(row.name), Trim(row.description))] else []
  }

  /** The `NAME:DESCRIPTION` pairs the form writes. */
  function EmittedDescriptions(rows: seq<VariableRow>): (r: seq<(string, string)>)
    ensures |r| <= |rows|
    decreases |rows|
  {
    if rows == [] then []
    else EmittedDescriptions(rows[..|rows| - 1]) + DescribedRow(rows[|rows| - 1])
  }

  function PairTexts(vs: seq<ParsedVariable>): (r: seq<string>)
    ensures |r| == |vs|
  {
    seq(|vs|, i requires 0 <= i < |vs| => vs[i].name + "=" + vs[i].value)
  }

  function DescriptionTexts(ds: seq<(string, string)>): (r: seq<string>)
    ensures |r| == |ds|
  {
    seq(|ds|, i requires 0 <= i < |ds| => ds[i].0 + ":" + ds[i].1)
  }

  /** `formData.vars`. */
  function VarsText(rows: seq<VariableRow>): string {
    Join(PairTexts(EmittedVariables(rows)), ';')
  }

  /** `formData.varDescriptions`. */
  function DescriptionsText(rows: seq<VariableRow>): string {
    Join(DescriptionTexts(EmittedDescriptions(rows)), ';')
  }

  lemma PairTextsAppend(vs: seq<ParsedVariable>, ws: seq<ParsedVariable>)
    ensures PairTexts(vs + ws) == PairTexts(vs) + PairTexts(ws)
  {
  }

  lemma DescriptionTextsAppend(ds: seq<(string, string)>, es: seq<(string, string)>)
    ensures DescriptionTexts(ds + es) == DescriptionTexts(ds) + DescriptionTexts(es)
  {
  }

  /** The name as the form writes it: trimmed, then `My_` put in front when it
      is non-empty and lacks the prefix. */
  method PrefixedName(raw: string) returns (varName: string)
    ensures varName == RowName(raw)
  {
    varName := Trim(raw);
    if varName != [] && !StartsWith(varName, "My_") {
      varName := "My_" + varName;
    }
  }

  /** The body of the `forEach` over the rows: what one row pushes onto each
      list. */
  method SerializeRow(row: VariableRow) returns (pushed: seq<string>, pushedDescription: seq<string>)
    ensures pushed == PairTexts(EmittedRow(row))
    ensures pushedDescription == DescriptionTexts(DescribedRow(row))
  {
    var varName := PrefixedName(row.name);
    var varValue := Trim(row.value);
    var varDesc := Trim(row.description);
    pushed, pushedDescription := [], [];
    if varName != [] && varValue != [] {
      PairTextsOne(ParsedVariable(varName, varValue));
      pushed := [varName + "=" + varValue];
      if varDesc != [] {
        DescriptionTextsOne((varName, varDesc));
        pushedDescription := [varName + ":" + varDesc];
      }
    }
  }

  lemma PairTextsOne(v: ParsedVariable)
    ensures PairTexts([v]) == [v.name + "=" + v.value]
  {
  }

  lemma DescriptionTextsOne(d: (string, string))
    ensures DescriptionTexts([d]) == [d.0 + ":" + d.1]
  {
  }

  /** The variable-list part of `collectParamFormData`: one pass over the rows
      collecting both lists, then the two `join(';')`s. */
  method SerializeVariableList(rows: seq<VariableRow>) returns (vars: string, descriptions: string)
    ensures vars == VarsText(rows) && descriptions == DescriptionsText(rows)
  {
    var variables: seq<string> := [];
    var variableDescriptions: seq<string> := [];
    ghost var emitted: seq<ParsedVariable> := [];
    ghost var described: seq<(string, string)> := [];
    var i := 0;
    assert rows[..0] == [];
    while i < |rows|
      invariant 0 <= i <= |rows|
      invariant emitted == EmittedVariables(rows[..i]) && variables == PairTexts(emitted)
      invariant described == EmittedDescriptions(rows[..i]) && variableDescriptions == DescriptionTexts(described)
    {
      var row := rows[i];
      EmittedSnoc(rows, i);
      PairTextsAppend(emitted, EmittedRow(row));
      DescriptionTextsAppend(described, DescribedRow(row));
      var pushed, pushedDescription := SerializeRow(row);
      variables := variables + pushed;
      variableDescriptions := variableDescriptions + pushedDescription;
      emitted := emitted + EmittedRow(row);
      described := described + DescribedRow(row);
      i := i + 1;
    }
    assert rows[..i] == rows;
    vars := Join(variables, ';');
    descriptions := Join(variableDescriptions, ';');
  }

  lemma EmittedSnoc(rows: seq<VariableRow>, i: nat)
    requires i < |rows|
    ensures EmittedVariables(rows[..i + 1]) == EmittedVariables(rows[..i]) + EmittedRow(rows[i])
    ensures EmittedDescriptions(rows[..i + 1]) == EmittedDescriptions(rows[..i]) + DescribedRow(rows[i])
  {
    assert rows[..i + 1][..i] == rows[..i];
  }

  /** `NAME=VALUE` splits back into its two halves. */
  lemma SplitPair(name: string, value: string, sep: char)
    requires sep !in name && sep !in value
    ensures Split(name + [sep] + value, sep) == [name, value]
  {
    SplitAtSeparator(name, value, sep);
    SplitWithoutSeparator(value, sep);
  }

  /** Names and values free of `;` and `=`. */
  predicate PlainPairs(vs: seq<ParsedVariable>) {
    forall i :: 0 <= i < |vs| ==>
      ';' !in vs[i].name && '=' !in vs[i].name && ';' !in vs[i].value && '=' !in vs[i].value
  }

  /** Parsing the written `vars` string gives back exactly the emitted name/value
      pairs, as long as none of them contains `;` or `=`. */
  lemma ParseSerializedVars(rows: seq<VariableRow>)
    requires PlainPairs(EmittedVariables(rows))
    ensures ParseVariables(VarsText(rows)) == EmittedVariables(rows)
  {
    var e := EmittedVariables(rows);
    if e != [] {
      ParseJoinedPairs(e);
    }
  }

  /** A non-empty list of written pairs, joined, parses back to itself. */
  lemma ParseJoinedPairs(e: seq<ParsedVariable>)
    requires e != [] && PlainPairs(e)
    requires forall i :: 0 <= i < |e| ==> WellEmitted(e[i])
    ensures ParseVariables(Join(PairTexts(e), ';')) == e
  {
    var t := PairTexts(e);
    PairTextsParse(e);
    SplitJoin(t, ';');
    NonBlankKeepsAll(t);
    JoinLength(t, ';');
    assert ParsePairs(t) == e;
  }

  lemma PairTextsParse(e: seq<ParsedVariable>)
    requires PlainPairs(e)
    requires forall i :: 0 <= i < |e| ==> WellEmitted(e[i])
    ensures var t := PairTexts(e);
            forall i :: 0 <= i < |t| ==> ';' !in t[i] && !Blank(t[i]) && ParsePair(t[i]) == e[i]
  {
    var t := PairTexts(e);
    forall i | 0 <= i < |t| ensures ';' !in t[i] && !Blank(t[i]) && ParsePair(t[i]) == e[i] {
      PairTextParses(e[i]);
    }
  }

  /** One written pair parses back to itself. */
  lemma PairTextParses(v: ParsedVariable)
    requires WellEmitted(v)
    requires ';' !in v.name && '=' !in v.name && ';' !in v.value && '=' !in v.value
    ensures var t := v.name + "=" + v.value; ';' !in t && !Blank(t) && ParsePair(t) == v
  {
    var t := v.name + "=" + v.value;
    assert t == v.name + ['='] + v.value;
    assert t[0] == v.name[0];
    SplitPair(v.name, v.value, '=');
  }

  lemma {:induction false} JoinLength(parts: seq<string>, sep: char)
    requires |parts| >= 1
    ensures |Join(parts, sep)| >= |parts[0]|
    decreases |parts|
  {
    if |parts| > 1 {
      JoinLength(parts[1..], sep);
    }
  }

  // ---------------------------------------------------------------- descriptions of a variable list

  /** One `NAME:DESC` piece: both halves must be non-empty; the trimmed
      description is stored under the trimmed name, a later piece overriding an
      earlier one. */
  function DescriptionEntry(m: map<string, string>, piece: string): map<string, string> {
    var parts := Split(piece, ':');
    if parts[0] != [] && Piece(parts, 1) != [] then m[Trim(parts[0]) := Trim(Piece(parts, 1))] else m
  }

  /** `descMap`, built by a `forEach` over the `;`-pieces. */
  function DescriptionMap(pieces: seq<string>): map<string, string>
    decreases |pieces|
  {
    if pieces == [] then map[]
    else DescriptionEntry(DescriptionMap(pieces[..|pieces| - 1]), pieces[|pieces| - 1])
  }

  /** The entry one parsed variable contributes: none for an empty name,
      otherwise its description from the map, or `''`. */
  function NamedEntry(v: ParsedVariable, descriptions: map<string, string>): (r: seq<Var>)
    ensures |r| <= 1
    ensures forall i :: 0 <= i < |r| ==> r[i].name == v.name != []
  {
    if v.name == [] then []
    else [Var(v.name, if v.name in descriptions then descriptions[v.name] else "")]
  }

  /** The registry entries of the parsed variables, in order. */
  function NamedVariables(ps: seq<ParsedVariable>, descriptions: map<string, string>): (r: seq<Var>)
    ensures |r| <= |ps|
    ensures forall i :: 0 <= i < |r| ==> r[i].name != []
    decreases |ps|
  {
    if ps == [] then []
    else NamedVariables(ps[..|ps| - 1], descriptions) + NamedEntry(ps[|ps| - 1], descriptions)
  }

  /** The variables a `variable` component defines; `None` when `vars` or
      `varDescriptions` is truthy but not a string, where `split` throws. */
  function VariableListVariables(params: Json): (r: Option<seq<Var>>)
    ensures r.Some? ==> forall i :: 0 <= i < |r.value| ==> r.value[i].name != []
  {
    var vars := Member(params, "vars");
    var descs := Member(params, "varDescriptions");
    if !TruthyOpt(vars) then Some([])
    else if !vars.value.JString? then None
    else if TruthyOpt(descs) && !descs.value.JString? then None
    else
      var dm := if TruthyOpt(descs) then DescriptionMap(Split(descs.value.s, ';')) else map[];
      Some(NamedVariables(ParseVariables(vars.value.s), dm))
  }

  // ---------------------------------------------------------------- collectSaveAsVariables

  /** The description prefix chosen from the component's name or type. */
  function TypePrefix(componentName: string): string {
    if Includes(componentName, "SOAP") || Includes(componentName, "Soap") || Includes(componentName, "接口") then "SOAP请求"
    else if Includes(componentName, "REST") || Includes(componentName, "Rest") then "REST请求"
    else "接口"
  }

  /** `parentPath ? parentPath + "." + key : key`. */
  function ExtendPath(parent: string, key: string): string {
    if parent == "" then key else parent + "." + key
  }

  /** The description of a saveAs variable found at `path`. */
  function SaveAsDescription(componentName: string, path: string): string {
    TypePrefix(componentName) + "响应字段 " + path
  }

  /** A typed leaf whose `saveAs` is a string with something besides whitespace. */
  predicate IsSaveAsLeaf(node: Json) {
    IsTypedLeaf(node) && Member(node, "saveAs").Some? && Member(node, "saveAs").value.JString?
    && !Blank(Member(node, "saveAs").value.s)
  }

  function Width(j: Json): nat {
    if j.JObject? then |j.members| else 0
  }

  /** What `collectSaveAsVariables(obj, componentName, [], parent)` pushes; `None`
      when a node has a truthy `type` and a truthy non-string `saveAs`, where
      `.trim()` throws. */
  function SaveAsVariables(obj: Json, cn: string, parent: string): (r: Option<seq<Var>>)
    decreases obj, 1 + Width(obj)
  {
    if obj.JObject? then MembersSaveAs(obj, |obj.members|, cn, parent) else Some([])
  }

  /** The first `n` keys of `obj`, in `Object.keys` order. */
  function MembersSaveAs(obj: Json, n: nat, cn: string, parent: string): (r: Option<seq<Var>>)
    requires obj.JObject? && n <= |obj.members|
    decreases obj, n
  {
    if n == 0 then Some([])
    else AppendOpt(MembersSaveAs(obj, n - 1, cn, parent), EntrySaveAs(obj, n - 1, cn, parent))
  }

  /** One key of the `forEach`: a saveAs leaf is reported, a type-less object is
      entered, anything else is skipped. */
  function EntrySaveAs(obj: Json, i: nat, cn: string, parent: string): (r: Option<seq<Var>>)
    requires obj.JObject? && i < |obj.members|
    decreases obj, 0
  {
    var node := obj.members[i].1;
    var path := ExtendPath(parent, obj.members[i].0);
    if !node.JObject? then Some([])
    else if TruthyOpt(Member(node, "type")) && TruthyOpt(Member(node, "saveAs")) then LeafSaveAs(node, cn, path)
    else if !TruthyOpt(Member(node, "type")) then SaveAsVariables(node, cn, path)
    else Some([])
  }

  /** A typed leaf with a truthy `saveAs`: a non-blank string mark is reported,
      a blank one is skipped, and `.trim()` on anything else throws. */
  function LeafSaveAs(node: Json, cn: string, path: string): (r: Option<seq<Var>>)
    ensures r.Some? ==> |r.value| <= 1 && NamesNonEmpty(r.value)
    ensures r.None? <==> !(Member(node, "saveAs").Some? && Member(node, "saveAs").value.JString?)
  {
    var saveAs := Member(node, "saveAs");
    if !(saveAs.Some? && saveAs.value.JString?) then None
    else if Trim(saveAs.value.s) != [] then Some([Var(saveAs.value.s, SaveAsDescription(cn, path))])
    else Some([])
  }

  predicate NamesNonEmpty(vs: seq<Var>) {
    forall i :: 0 <= i < |vs| ==> vs[i].name != []
  }

  /** Every saveAs variable found has a non-empty name. */
  lemma {:induction false} SaveAsNamesNonEmpty(obj: Json, cn: string, parent: string)
    requires SaveAsVariables(obj, cn, parent).Some?
    ensures NamesNonEmpty(SaveAsVariables(obj, cn, parent).value)
    decreases obj, 1 + Width(obj)
  {
    if obj.JObject? {
      MembersNamesNonEmpty(obj, |obj.members|, cn, parent);
    }
  }

  lemma {:induction false} MembersNamesNonEmpty(obj: Json, n: nat, cn: string, parent: string)
    requires obj.JObject? && n <= |obj.members| && MembersSaveAs(obj, n, cn, parent).Some?
    ensures NamesNonEmpty(MembersSaveAs(obj, n, cn, parent).value)
    decreases obj, n
  {
    if n > 0 {
      MembersNamesNonEmpty(obj, n - 1, cn, parent);
      EntryNamesNonEmpty(obj, n - 1, cn, parent);
    }
  }

  lemma {:induction false} EntryNamesNonEmpty(obj: Json, i: nat, cn: string, parent: string)
    requires obj.JObject? && i < |obj.members| && EntrySaveAs(obj, i, cn, parent).Some?
    ensures NamesNonEmpty(EntrySaveAs(obj, i, cn, parent).value)
    decreases obj, 0
  {
    var node := obj.members[i].1;
    var path := ExtendPath(parent, obj.members[i].0);
    if node.JObject? && !TruthyOpt(Member(node, "type")) {
      SaveAsNamesNonEmpty(node, cn, path);
    }
  }

  /** Puts the variables collected before the call in front of a result. */
  function Prepend(before: seq<Var>, r: Option<seq<Var>>): Option<seq<Var>> {
    if r.Some? then Some(before + r.value) else None
  }

  /** Pushing a second part onto what the first part left behind. */
  lemma PrependAppend(before: seq<Var>, acc: seq<Var>, a: Option<seq<Var>>, b: Option<seq<Var>>, r: Option<seq<Var>>)
    requires Some(acc) == Prepend(before, a) && r == Prepend(acc, b)
    ensures r == Prepend(before, AppendOpt(a, b))
  {
    if b.Some? {
      AppendAssoc(before, a.value, b.value);
    }
  }

  lemma {:induction false} MembersNoneStays(obj: Json, i: nat, n: nat, cn: string, parent: string)
    requires obj.JObject? && i <= n <= |obj.members|
    requires MembersSaveAs(obj, i, cn, parent).None?
    ensures MembersSaveAs(obj, n, cn, parent).None?
    decreases n - i
  {
    if i < n {
      MembersNoneStays(obj, i + 1, n, cn, parent);
    }
  }

  /** One more key of the walk. */
  lemma MembersStep(obj: Json, i: nat, cn: string, parent: string, variables: seq<Var>, acc: seq<Var>,
                    r: Option<seq<Var>>)
    requires obj.JObject? && i < |obj.members|
    requires Some(acc) == Prepend(variables, MembersSaveAs(obj, i, cn, parent))
    requires r == Prepend(acc, EntrySaveAs(obj, i, cn, parent))
    ensures r == Prepend(variables, MembersSaveAs(obj, i + 1, cn, parent))
  {
    PrependAppend(variables, acc, MembersSaveAs(obj, i, cn, parent), EntrySaveAs(obj, i, cn, parent), r);
  }

  /** `collectSaveAsVariables`: a `forEach` over the keys pushing onto the shared
      `variables` array. */
  method CollectSaveAsVariables(obj: Json, cn: string, variables: seq<Var>, parent: string)
    returns (r: Option<seq<Var>>)
    ensures r == Prepend(variables, SaveAsVariables(obj, cn, parent))
    decreases obj, 1
  {
    if !obj.JObject? {
      assert variables + [] == variables;
      return Some(variables);
    }
    assert variables + [] == variables;
    var acc := variables;
    var i := 0;
    while i < |obj.members|
      invariant 0 <= i <= |obj.members|
      invariant Some(acc) == Prepend(variables, MembersSaveAs(obj, i, cn, parent))
    {
      r := CollectEntry(obj, i, cn, acc, parent);
      MembersStep(obj, i, cn, parent, variables, acc, r);
      if r.None? {
        MembersNoneStays(obj, i + 1, |obj.members|, cn, parent);
        return;
      }
      acc := r.value;
      i := i + 1;
    }
    r := Some(acc);
  }

  /** The body of the `forEach` for the `i`-th key: push a saveAs leaf, recurse
      into a type-less object. */
  method CollectEntry(obj: Json, i: nat, cn: string, acc: seq<Var>, parent: string)
    returns (r: Option<seq<Var>>)
    requires obj.JObject? && i < |obj.members|
    ensures r == Prepend(acc, EntrySaveAs(obj, i, cn, parent))
    decreases obj, 0
  {
    var key := obj.members[i].0;
    var node := obj.members[i].1;
    var path := ExtendPath(parent, key);
    assert acc + [] == acc;
    r := Some(acc);
    if node.JObject? {
      var ty := Member(node, "type");
      var saveAs := Member(node, "saveAs");
      if TruthyOpt(ty) && TruthyOpt(saveAs) {
        if !saveAs.value.JString? {
          return None;
        }
        if Trim(saveAs.value.s) != [] {
          r := Some(acc + [Var(saveAs.value.s, SaveAsDescription(cn, path))]);
        }
      } else if !TruthyOpt(ty) {
        r := CollectSaveAsVariables(node, cn, acc, path);
      }
    }
  }

  // ---------------------------------------------------------------- which leaves are found

  /** The leaf at key path `p` below `obj` is a saveAs leaf reached through
      type-less objects only, and `v` is what the walk started at `parent`
      reports for it. */
  predicate SaveAsSite(obj: Json, cn: string, parent: string, p: seq<string>, v: Var)
    decreases |p|
  {
    && |p| >= 1 && obj.JObject? && Member(obj, p[0]).Some? && Member(obj, p[0]).value.JObject?
    && var node := Member(obj, p[0]).value;
       var path := ExtendPath(parent, p[0]);
       if |p| == 1 then IsSaveAsLeaf(node) && v == Var(Member(node, "saveAs").value.s, SaveAsDescription(cn, path))
       else !TruthyOpt(Member(node, "type")) && SaveAsSite(node, cn, path, p[1..], v)
  }

  /** A saveAs site below the `i`-th key of `obj`. */
  predicate SiteUnder(obj: Json, i: nat, cn: string, parent: string, p: seq<string>, v: Var) {
    obj.JObject? && i < |obj.members| && |p| >= 1 && p[0] == obj.members[i].0 && SaveAsSite(obj, cn, parent, p, v)
  }

  /** `v` is reported for some saveAs site below the `i`-th key. */
  ghost predicate SiteAt(obj: Json, i: nat, cn: string, parent: string, v: Var) {
    exists p :: SiteUnder(obj, i, cn, parent, p, v)
  }

  /** `v` is reported for some saveAs site below one of the first `n` keys. */
  ghost predicate SiteBefore(obj: Json, n: nat, cn: string, parent: string, v: Var) {
    exists i: nat :: i < n && SiteAt(obj, i, cn, parent, v)
  }

  /** On a well-formed tree the walk reports exactly the saveAs sites: a variable
      is found if and only if it belongs to a typed leaf with a non-blank saveAs
      reached through type-less objects. */
  lemma {:induction false} SaveAsVariablesExact(obj: Json, cn: string, parent: string, v: Var)
    requires WellFormed(obj) && SaveAsVariables(obj, cn, parent).Some?
    ensures v in SaveAsVariables(obj, cn, parent).value <==> exists p :: SaveAsSite(obj, cn, parent, p, v)
    decreases obj, 1 + Width(obj)
  {
    if obj.JObject? {
      var ms := obj.members;
      MembersSaveAsExact(obj, |ms|, cn, parent, v);
      assert SaveAsVariables(obj, cn, parent) == MembersSaveAs(obj, |ms|, cn, parent);
      forall p | SaveAsSite(obj, cn, parent, p, v) ensures v in SaveAsVariables(obj, cn, parent).value {
        SiteHasIndex(obj, cn, parent, p, v);
      }
      if v in SaveAsVariables(obj, cn, parent).value {
        var i: nat :| i < |ms| && SiteAt(obj, i, cn, parent, v);
        var p :| SiteUnder(obj, i, cn, parent, p, v);
        assert SaveAsSite(obj, cn, parent, p, v);
        assert exists p' :: SaveAsSite(obj, cn, parent, p', v);
      } else {
        assert !exists p' :: SaveAsSite(obj, cn, parent, p', v);
      }
    }
  }

  /** A site names one of the keys of `obj`. */
  lemma SiteHasIndex(obj: Json, cn: string, parent: string, p: seq<string>, v: Var)
    requires obj.JObject? && SaveAsSite(obj, cn, parent, p, v)
    ensures SiteBefore(obj, |obj.members|, cn, parent, v)
  {
    var ms := obj.members;
    assert Lookup(ms, p[0]).Some?;
    LookupFound(ms, p[0]);
    var i: nat :| i < |ms| && ms[i] == (p[0], Lookup(ms, p[0]).value);
    assert SiteUnder(obj, i, cn, parent, p, v);
    assert SiteAt(obj, i, cn, parent, v);
  }

  lemma {:induction false} MembersSaveAsExact(obj: Json, n: nat, cn: string, parent: string, v: Var)
    requires WellFormed(obj) && obj.JObject? && n <= |obj.members| && MembersSaveAs(obj, n, cn, parent).Some?
    ensures v in MembersSaveAs(obj, n, cn, parent).value <==> SiteBefore(obj, n, cn, parent, v)
    decreases obj, n
  {
    if n > 0 {
      MembersSaveAsExact(obj, n - 1, cn, parent, v);
      EntrySaveAsExact(obj, n - 1, cn, parent, v);
      var before := MembersSaveAs(obj, n - 1, cn, parent).value;
      var here := EntrySaveAs(obj, n - 1, cn, parent).value;
      assert MembersSaveAs(obj, n, cn, parent).value == before + here;
      SitesStep(obj, n - 1, cn, parent, v, before, here);
    }
  }

  /** Adding key `k` to the walk adds exactly the sites below it. */
  lemma SitesStep(obj: Json, k: nat, cn: string, parent: string, v: Var, before: seq<Var>, here: seq<Var>)
    requires v in before <==> SiteBefore(obj, k, cn, parent, v)
    requires v in here <==> SiteAt(obj, k, cn, parent, v)
    ensures v in before + here <==> SiteBefore(obj, k + 1, cn, parent, v)
  {
    if v in before + here {
      if v in before {
        var i: nat :| i < k && SiteAt(obj, i, cn, parent, v);
        assert i < k + 1;
      } else {
        assert k < k + 1;
      }
    }
    if SiteBefore(obj, k + 1, cn, parent, v) {
      var i: nat :| i < k + 1 && SiteAt(obj, i, cn, parent, v);
      if i < k {
        assert SiteBefore(obj, k, cn, parent, v);
      }
    }
  }

  /** A site below key `i` is either that key's own saveAs leaf or a site inside
      its type-less object. */
  lemma SiteUnderUnfold(obj: Json, i: nat, cn: string, parent: string, p: seq<string>, v: Var)
    requires WellFormed(obj) && obj.JObject? && i < |obj.members|
    ensures SiteUnder(obj, i, cn, parent, p, v) <==>
      var node := obj.members[i].1;
      var path := ExtendPath(parent, obj.members[i].0);
      && |p| >= 1 && p[0] == obj.members[i].0 && node.JObject?
      && if |p| == 1 then IsSaveAsLeaf(node) && v == Var(Member(node, "saveAs").value.s, SaveAsDescription(cn, path))
         else !TruthyOpt(Member(node, "type")) && SaveAsSite(node, cn, path, p[1..], v)
  {
    LookupAtIndex(obj.members, i);
  }

  lemma {:induction false} EntrySaveAsExact(obj: Json, i: nat, cn: string, parent: string, v: Var)
    requires WellFormed(obj) && obj.JObject? && i < |obj.members| && EntrySaveAs(obj, i, cn, parent).Some?
    ensures v in EntrySaveAs(obj, i, cn, parent).value <==> SiteAt(obj, i, cn, parent, v)
    decreases obj, 0
  {
    var key := obj.members[i].0;
    var node := obj.members[i].1;
    var path := ExtendPath(parent, key);
    var typed := TruthyOpt(Member(node, "type"));
    if node.JObject? && !typed {
      assert WellFormed(node);
      SaveAsVariablesExact(node, cn, path, v);
      if q :| SaveAsSite(node, cn, path, q, v) {
        var p := [key] + q;
        assert p[1..] == q;
        SiteUnderUnfold(obj, i, cn, parent, p, v);
        assert SiteUnder(obj, i, cn, parent, p, v);
      }
      if p :| SiteUnder(obj, i, cn, parent, p, v) {
        SiteUnderUnfold(obj, i, cn, parent, p, v);
      }
    } else if node.JObject? && IsSaveAsLeaf(node) {
      var w := Var(Member(node, "saveAs").value.s, SaveAsDescription(cn, path));
      assert EntrySaveAs(obj, i, cn, parent).value == [w];
      if v == w {
        SiteUnderUnfold(obj, i, cn, parent, [key], v);
        assert SiteUnder(obj, i, cn, parent, [key], v);
      }
      forall p | SiteUnder(obj, i, cn, parent, p, v) ensures v == w {
        SiteUnderUnfold(obj, i, cn, parent, p, v);
      }
    } else {
      assert EntrySaveAs(obj, i, cn, parent).value == [];
      forall p ensures !SiteUnder(obj, i, cn, parent, p, v) {
        SiteUnderUnfold(obj, i, cn, parent, p, v);
      }
    }
  }

  // ---------------------------------------------------------------- collectAllVariables

  /** `component.name || component.type`. */
  function ComponentLabel(comp: Component): string {
    if comp.name != "" then comp.name else comp.kind
  }

  /** The saveAs variables of an `api`/`restful` component's response tree. */
  function ResponseVariables(comp: Component): (r: Option<seq<Var>>)
  {
    var rsp := Member(comp.params, "rRsp");
    if (comp.kind == "api" || comp.kind == "restful") && TruthyOpt(rsp) then
      SaveAsVariables(rsp.value, ComponentLabel(comp), "")
    else Some([])
  }

  /** One component's contribution: its variable list (for preconditions and
      steps only), then its response saveAs variables. */
  function ComponentVariables(comp: Component, withLists: bool): (r: Option<seq<Var>>)
  {
    var lists := if withLists && comp.kind == "variable" then VariableListVariables(comp.params) else Some([]);
    AppendOpt(lists, ResponseVariables(comp))
  }

  function ComponentsVariables(comps: seq<Component>, withLists: bool): (r: Option<seq<Var>>)
    decreases |comps|
  {
    if comps == [] then Some([])
    else AppendOpt(ComponentsVariables(comps[..|comps| - 1], withLists), ComponentVariables(comps[|comps| - 1], withLists))
  }

  function StepsVariables(steps: seq<Step>, withLists: bool): (r: Option<seq<Var>>)
    decreases |steps|
  {
    if steps == [] then Some([])
    else AppendOpt(StepsVariables(steps[..|steps| - 1], withLists), ComponentsVariables(steps[|steps| - 1].components, withLists))
  }

  /** Every definition in scan order: preconditions, steps, expected results (the
      last without variable lists), duplicates included. */
  function RawVariables(c: Case): (r: Option<seq<Var>>)
  {
    AppendOpt(AppendOpt(StepsVariables(c.preconditions, true), StepsVariables(c.steps, true)),
              StepsVariables(c.expectedResults, false))
  }

  /** No scanned definition has an empty name: variable lists skip them and a
      saveAs mark must be non-blank. */
  lemma ComponentNamesNonEmpty(comp: Component, withLists: bool)
    requires ComponentVariables(comp, withLists).Some?
    ensures NamesNonEmpty(ComponentVariables(comp, withLists).value)
  {
    var rsp := Member(comp.params, "rRsp");
    if (comp.kind == "api" || comp.kind == "restful") && TruthyOpt(rsp) {
      SaveAsNamesNonEmpty(rsp.value, ComponentLabel(comp), "");
    }
  }

  lemma {:induction false} ComponentsNamesNonEmpty(comps: seq<Component>, withLists: bool)
    requires ComponentsVariables(comps, withLists).Some?
    ensures NamesNonEmpty(ComponentsVariables(comps, withLists).value)
    decreases |comps|
  {
    if comps != [] {
      ComponentsNamesNonEmpty(comps[..|comps| - 1], withLists);
      ComponentNamesNonEmpty(comps[|comps| - 1], withLists);
    }
  }

  lemma {:induction false} StepsNamesNonEmpty(steps: seq<Step>, withLists: bool)
    requires StepsVariables(steps, withLists).Some?
    ensures NamesNonEmpty(StepsVariables(steps, withLists).value)
    decreases |steps|
  {
    if steps != [] {
      StepsNamesNonEmpty(steps[..|steps| - 1], withLists);
      ComponentsNamesNonEmpty(steps[|steps| - 1].components, withLists);
    }
  }

  lemma RawNamesNonEmpty(c: Case)
    requires RawVariables(c).Some?
    ensures NamesNonEmpty(RawVariables(c).value)
  {
    StepsNamesNonEmpty(c.preconditions, true);
    StepsNamesNonEmpty(c.steps, true);
    StepsNamesNonEmpty(c.expectedResults, false);
  }

  /** The first index holding `name`. */
  function FirstIndex(vs: seq<Var>, name: string): (i: nat)
    requires name in Names(vs)
    ensures i < |vs| && vs[i].name == name
    ensures forall j :: 0 <= j < i ==> vs[j].name != name
    decreases |vs|
  {
    NamesSnoc(vs);
    var p := vs[..|vs| - 1];
    if name in Names(p) then FirstIndex(p, name) else |vs| - 1
  }

  /** The `Set`-based pass of `collectAllVariables`: an entry is kept when its
      name has not been seen before. The result has distinct names and the same
      set of names. */
  function Dedup(vs: seq<Var>): (r: seq<Var>)
    ensures Distinct(r)
    ensures Names(r) == Names(vs)
    ensures forall k :: 0 <= k < |r| ==> r[k] in vs
    decreases |vs|
  {
    if vs == [] then []
    else
      var p := vs[..|vs| - 1];
      var x := vs[|vs| - 1];
      var d := Dedup(p);
      NamesSnoc(vs);
      if x.name in Names(p) then d
      else
        NamesSnoc(d + [x]);
        assert (d + [x])[..|d|] == d;
        d + [x]
  }

  /** The entry kept for each name is its first occurrence. */
  lemma {:induction false} DedupFirstOccurrence(vs: seq<Var>, k: nat)
    requires k < |Dedup(vs)|
    ensures Dedup(vs)[k].name in Names(vs)
    ensures Dedup(vs)[k] == vs[FirstIndex(vs, Dedup(vs)[k].name)]
    decreases |vs|
  {
    var p := vs[..|vs| - 1];
    var x := vs[|vs| - 1];
    NamesSnoc(vs);
    var r := Dedup(vs);
    assert r[k].name in Names(r);
    if k < |Dedup(p)| {
      assert r[k] == Dedup(p)[k];
      DedupFirstOccurrence(p, k);
      assert r[k].name in Names(Dedup(p));
    }
  }

  /** Kept entries come in the order of their first occurrences. */
  lemma {:induction false} DedupOrder(vs: seq<Var>, k1: nat, k2: nat)
    requires k1 < k2 < |Dedup(vs)|
    ensures Dedup(vs)[k1].name in Names(vs) && Dedup(vs)[k2].name in Names(vs)
    ensures FirstIndex(vs, Dedup(vs)[k1].name) < FirstIndex(vs, Dedup(vs)[k2].name)
    decreases |vs|
  {
    var p := vs[..|vs| - 1];
    var r := Dedup(vs);
    NamesSnoc(vs);
    assert r[k1].name in Names(r) && r[k2].name in Names(r);
    assert r[k1] == Dedup(p)[k1];
    assert r[k1].name in Names(Dedup(p));
    if k2 < |Dedup(p)| {
      assert r[k2] == Dedup(p)[k2];
      DedupOrder(p, k1, k2);
      assert r[k2].name in Names(Dedup(p));
    }
  }

  /** `collectAllVariables()` on the case it picks (`None`: no case, no
      variables). */
  function AllVariables(c: Option<Case>): (r: Option<seq<Var>>)
    ensures r.Some? ==> Distinct(r.value)
    ensures r.Some? ==> forall i :: 0 <= i < |r.value| ==> r.value[i].name != []
  {
    if c.None? then Some([])
    else match RawVariables(c.value)
      case None => None
      case Some(raw) =>
        RawNamesNonEmpty(c.value);
        Some(Dedup(raw))
  }

  /** The variable-list definitions of expected results are never collected:
      replacing the parameters of such a component changes nothing. */
  lemma ExpectedResultListsIgnored(comp: Component, params: Json)
    requires comp.kind == "variable"
    ensures ComponentVariables(comp, false) == Some([])
    ensures ComponentVariables(comp.(params := params), false) == Some([])
  {
  }

  /** The variable-list branch of the inner `forEach`: parse `vars`, build
      `descMap` from the `varDescriptions` pieces, then push every parsed
      variable with a name. */
  method CollectVariableList(params: Json, acc: seq<Var>) returns (r: Option<seq<Var>>)
    ensures r == Prepend(acc, VariableListVariables(params))
  {
    var vars := Member(params, "vars");
    if !TruthyOpt(vars) {
      assert acc + [] == acc;
      return Some(acc);
    }
    if !vars.value.JString? {
      return None;
    }
    var parsed := ParseVariables(vars.value.s);
    var descs := Member(params, "varDescriptions");
    var descriptions: seq<string> := [];
    if TruthyOpt(descs) {
      if !descs.value.JString? {
        return None;
      }
      descriptions := Split(descs.value.s, ';');
    }
    var descMap := BuildDescriptionMap(descriptions);
    var out := PushNamedVariables(parsed, descMap, acc);
    r := Some(out);
  }

  /** `descriptions.forEach(...)` filling `descMap`. */
  method BuildDescriptionMap(descriptions: seq<string>) returns (descMap: map<string, string>)
    ensures descMap == DescriptionMap(descriptions)
  {
    descMap := map[];
    var i := 0;
    while i < |descriptions|
      invariant 0 <= i <= |descriptions|
      invariant descMap == DescriptionMap(descriptions[..i])
    {
      assert descriptions[..i + 1][..i] == descriptions[..i];
      var parts := Split(descriptions[i], ':');
      var name, description := parts[0], Piece(parts, 1);
      if name != [] && description != [] {
        descMap := descMap[Trim(name) := Trim(description)];
      }
      i := i + 1;
    }
    assert descriptions[..i] == descriptions;
  }

  /** `vars.forEach(...)` pushing every parsed variable that has a name. */
  method PushNamedVariables(parsed: seq<ParsedVariable>, descMap: map<string, string>, acc: seq<Var>)
    returns (out: seq<Var>)
    ensures out == acc + NamedVariables(parsed, descMap)
  {
    out := acc;
    ghost var named: seq<Var> := [];
    var j := 0;
    assert acc + [] == acc && parsed[..0] == [];
    while j < |parsed|
      invariant 0 <= j <= |parsed|
      invariant named == NamedVariables(parsed[..j], descMap) && out == acc + named
    {
      assert parsed[..j + 1][..j] == parsed[..j];
      var v := parsed[j];
      if v.name != [] {
        var description := if v.name in descMap then descMap[v.name] else "";
        out := out + [Var(v.name, description)];
      }
      AppendAssoc(acc, named, NamedEntry(v, descMap));
      named := named + NamedEntry(v, descMap);
      j := j + 1;
    }
    assert parsed[..j] == parsed;
  }

  /** The body of the inner `forEach`: one component's pushes. */
  method CollectComponent(comp: Component, withLists: bool, acc: seq<Var>) returns (r: Option<seq<Var>>)
    ensures r == Prepend(acc, ComponentVariables(comp, withLists))
  {
    ghost var listed := if withLists && comp.kind == "variable" then VariableListVariables(comp.params) else Some([]);
    var afterLists: Option<seq<Var>> := Some(acc);
    assert acc + [] == acc;
    if withLists && comp.kind == "variable" {
      afterLists := CollectVariableList(comp.params, acc);
    }
    if afterLists.None? {
      return None;
    }
    var before := afterLists.value;
    var rsp := Member(comp.params, "rRsp");
    if (comp.kind == "api" || comp.kind == "restful") && TruthyOpt(rsp) {
      r := CollectSaveAsVariables(rsp.value, ComponentLabel(comp), before, "");
    } else {
      assert before + [] == before;
      r := Some(before);
    }
    PrependAppend(acc, before, listed, ResponseVariables(comp), r);
  }

  /** The inner `forEach` over a step's components. */
  method CollectComponents(comps: seq<Component>, withLists: bool, acc0: seq<Var>) returns (r: Option<seq<Var>>)
    ensures r == Prepend(acc0, ComponentsVariables(comps, withLists))
  {
    assert acc0 + [] == acc0;
    r := Some(acc0);
    var j := 0;
    while j < |comps|
      invariant 0 <= j <= |comps|
      invariant r == Prepend(acc0, ComponentsVariables(comps[..j], withLists))
    {
      assert comps[..j + 1][..j] == comps[..j];
      if r.None? {
        ComponentsNoneStays(comps, j, withLists);
        return None;
      }
      var acc := r.value;
      r := CollectComponent(comps[j], withLists, acc);
      PrependAppend(acc0, acc, ComponentsVariables(comps[..j], withLists), ComponentVariables(comps[j], withLists), r);
      j := j + 1;
    }
    assert comps[..j] == comps;
  }

  /** The scan of one section: the outer `forEach` over its steps. */
  method CollectSection(steps: seq<Step>, withLists: bool, acc0: seq<Var>) returns (r: Option<seq<Var>>)
    ensures r == Prepend(acc0, StepsVariables(steps, withLists))
  {
    assert acc0 + [] == acc0;
    r := Some(acc0);
    var i := 0;
    while i < |steps|
      invariant 0 <= i <= |steps|
      invariant r == Prepend(acc0, StepsVariables(steps[..i], withLists))
    {
      assert steps[..i + 1][..i] == steps[..i];
      if r.None? {
        StepsNoneFrom(steps, i, withLists);
        return None;
      }
      var acc := r.value;
      r := CollectComponents(steps[i].components, withLists, acc);
      PrependAppend(acc0, acc, StepsVariables(steps[..i], withLists), ComponentsVariables(steps[i].components, withLists), r);
      i := i + 1;
    }
    assert steps[..i] == steps;
  }

  lemma {:induction false} ComponentsNoneStays(comps: seq<Component>, j: nat, withLists: bool)
    requires j <= |comps| && ComponentsVariables(comps[..j], withLists).None?
    ensures ComponentsVariables(comps, withLists).None?
    decreases |comps| - j
  {
    if j < |comps| {
      assert comps[..j + 1][..j] == comps[..j];
      ComponentsNoneStays(comps, j + 1, withLists);
    } else {
      assert comps[..j] == comps;
    }
  }

  lemma {:induction false} StepsNoneFrom(steps: seq<Step>, n: nat, withLists: bool)
    requires n <= |steps| && StepsVariables(steps[..n], withLists).None?
    ensures StepsVariables(steps, withLists).None?
    decreases |steps| - n
  {
    if n < |steps| {
      assert steps[..n + 1][..n] == steps[..n];
      StepsNoneFrom(steps, n + 1, withLists);
    } else {
      assert steps[..n] == steps;
    }
  }

  /** `collectAllVariables`: the three section scans pushing onto one array,
      then the dedup pass with a set of seen names. */
  method CollectAllVariables(c: Option<Case>) returns (r: Option<seq<Var>>)
    ensures r == AllVariables(c)
  {
    if c.None? {
      return Some([]);
    }
    var cs := c.value;
    ghost var pre := StepsVariables(cs.preconditions, true);
    var variables := CollectSection(cs.preconditions, true, []);
    if pre.Some? {
      assert [] + pre.value == pre.value;
    }
    if variables.None? {
      return None;
    }
    var acc := variables.value;
    variables := CollectSection(cs.steps, true, acc);
    PrependAppend([], acc, pre, StepsVariables(cs.steps, true), variables);
    if variables.None? {
      return None;
    }
    acc := variables.value;
    variables := CollectSection(cs.expectedResults, false, acc);
    PrependAppend([], acc, AppendOpt(pre, StepsVariables(cs.steps, true)), StepsVariables(cs.expectedResults, false), variables);
    if variables.None? {
      return None;
    }
    var raw := variables.value;
    assert [] + RawVariables(cs).value == raw;
    var uniqueVars := DedupByName(raw);
    r := Some(uniqueVars);
  }

  /** The dedup `forEach`: keep an entry when the set of seen names does not
      have its name yet. */
  method DedupByName(raw: seq<Var>) returns (uniqueVars: seq<Var>)
    ensures uniqueVars == Dedup(raw)
  {
    uniqueVars := [];
    var seen: set<string> := {};
    var i := 0;
    while i < |raw|
      invariant 0 <= i <= |raw|
      invariant uniqueVars == Dedup(raw[..i])
      invariant seen == Names(raw[..i])
    {
      assert raw[..i + 1][..i] == raw[..i];
      NamesSnoc(raw[..i + 1]);
      if raw[i].name !in seen {
        seen := seen + {raw[i].name};
        uniqueVars := uniqueVars + [raw[i]];
      }
      i := i + 1;
    }
    assert raw[..i] == raw;
  }

  // ---------------------------------------------------------------- syncSaveAsVariable

  /** The old saveAs value to remove: it has to be truthy to trigger the filter,
      and only a string can equal a variable name. */
  function StaleName(oldName: Option<Json>): (r: Option<string>)
    ensures r.Some? ==> r.value != []
  {
    if oldName.Some? && oldName.value.JString? && oldName.value.s != [] then Some(oldName.value.s) else None
  }

  /** `vars.filter(v => v.name !== name)`. */
  function RemoveNamed(vs: seq<Var>, name: string): (r: seq<Var>)
    ensures |r| <= |vs|
    ensures forall i :: 0 <= i < |r| ==> r[i].name != name && r[i] in vs
    ensures forall i :: 0 <= i < |vs| && vs[i].name != name ==> vs[i] in r
    ensures Distinct(vs) ==> Distinct(r)
    decreases |vs|
  {
    if vs == [] then []
    else
      var p := RemoveNamed(vs[..|vs| - 1], name);
      var x := vs[|vs| - 1];
      if x.name == name then p
      else
        assert forall i :: 0 <= i < |p| ==> p[i] in vs[..|vs| - 1];
        p + [x]
  }

  /** The filter works entry by entry, so the entries it keeps stay in their
      relative order. */
  lemma {:induction false} RemoveNamedAppend(a: seq<Var>, b: seq<Var>, name: string)
    ensures RemoveNamed(a + b, name) == RemoveNamed(a, name) + RemoveNamed(b, name)
    decreases |b|
  {
    if b == [] {
      assert a + b == a;
    } else {
      var b' := b[..|b| - 1];
      assert (a + b)[..|a + b| - 1] == a + b';
      assert (a + b)[|a + b| - 1] == b[|b| - 1];
      RemoveNamedAppend(a, b', name);
      AppendAssoc(RemoveNamed(a, name), RemoveNamed(b', name), [b[|b| - 1]]);
    }
  }

  function HasName(vs: seq<Var>, name: string): (b: bool)
    ensures b <==> exists i :: 0 <= i < |vs| && vs[i].name == name
  {
    exists i :: 0 <= i < |vs| && vs[i].name == name
  }

  /** The description given to a variable named by a saveAs edit. */
  function SyncDescription(treeName: string, fieldKey: string): string {
    (if treeName == "rRsp" then "SOAP/REST请求响应" else "组件响应") + "字段 " + fieldKey
  }

  /** The registry after `syncSaveAsVariable(oldName, newName, treeName, fieldKey)`:
      every entry named by the old saveAs is gone (unless it is the new name,
      re-added); a non-blank new name is present afterwards, added at the end
      only if missing; all other entries are kept; distinct names stay
      distinct. */
  function SyncedVariables(vs: seq<Var>, oldName: Option<Json>, newName: string, treeName: string, fieldKey: string)
    : (r: seq<Var>)
    ensures StaleName(oldName).Some? && StaleName(oldName).value != newName ==>
      forall i :: 0 <= i < |r| ==> r[i].name != StaleName(oldName).value
    ensures !Blank(newName) ==> HasName(r, newName)
    ensures Blank(newName) ==> |r| <= |vs|
    ensures forall i :: 0 <= i < |vs| && Some(vs[i].name) != StaleName(oldName) ==> vs[i] in r
    ensures forall i :: 0 <= i < |r| ==> r[i] in vs || r[i] == Var(newName, SyncDescription(treeName, fieldKey))
    ensures Distinct(vs) ==> Distinct(r)
  {
    var added := Var(newName, SyncDescription(treeName, fieldKey));
    SyncRemovesStale(vs, oldName, added);
    SyncKeepsOthers(vs, oldName, added);
    AddMissing(WithoutStale(vs, oldName), added)
  }

  lemma SyncRemovesStale(vs: seq<Var>, oldName: Option<Json>, added: Var)
    ensures var r := AddMissing(WithoutStale(vs, oldName), added);
            StaleName(oldName).Some? && StaleName(oldName).value != added.name ==>
              forall i :: 0 <= i < |r| ==> r[i].name != StaleName(oldName).value
  {
    var w := WithoutStale(vs, oldName);
    var r := AddMissing(w, added);
    if StaleName(oldName).Some? && StaleName(oldName).value != added.name {
      forall i | 0 <= i < |r| ensures r[i].name != StaleName(oldName).value {
        if r[i] != added {
          assert r[i] in w;
        }
      }
    }
  }

  lemma SyncKeepsOthers(vs: seq<Var>, oldName: Option<Json>, added: Var)
    ensures var r := AddMissing(WithoutStale(vs, oldName), added);
            forall i :: 0 <= i < |vs| && Some(vs[i].name) != StaleName(oldName) ==> vs[i] in r
  {
    var w := WithoutStale(vs, oldName);
    var r := AddMissing(w, added);
    forall i | 0 <= i < |vs| && Some(vs[i].name) != StaleName(oldName) ensures vs[i] in r {
      assert vs[i] in w;
    }
  }

  /** The first half of the update: the entries named by the old saveAs go. */
  function WithoutStale(vs: seq<Var>, oldName: Option<Json>): (r: seq<Var>)
    ensures StaleName(oldName).Some? ==> forall i :: 0 <= i < |r| ==> r[i].name != StaleName(oldName).value
    ensures forall i :: 0 <= i < |vs| && Some(vs[i].name) != StaleName(oldName) ==> vs[i] in r
    ensures forall i :: 0 <= i < |r| ==> r[i] in vs
    ensures forall x :: x in r ==> x in vs && (StaleName(oldName).Some? ==> x.name != StaleName(oldName).value)
    ensures |r| <= |vs|
    ensures Distinct(vs) ==> Distinct(r)
  {
    if StaleName(oldName).Some? then RemoveNamed(vs, StaleName(oldName).value) else vs
  }

  /** The second half: a non-blank new name is appended unless present. */
  function AddMissing(vs: seq<Var>, added: Var): (r: seq<Var>)
    ensures !Blank(added.name) ==> HasName(r, added.name)
    ensures Blank(added.name) ==> r == vs
    ensures r == vs || r == vs + [added]
    ensures forall i :: 0 <= i < |r| ==> r[i] in vs || r[i] == added
    ensures Distinct(vs) ==> Distinct(r)
  {
    if Trim(added.name) != [] && !HasName(vs, added.name) then
      AppendNew(vs, added);
      vs + [added]
    else vs
  }

  /** Appending an entry whose name is not taken. */
  lemma AppendNew(vs: seq<Var>, x: Var)
    requires !HasName(vs, x.name)
    ensures HasName(vs + [x], x.name)
    ensures Distinct(vs) ==> Distinct(vs + [x])
    ensures forall i :: 0 <= i < |vs + [x]| ==> (vs + [x])[i] in vs || (vs + [x])[i] == x
  {
    var r := vs + [x];
    assert r[|vs|] == x;
    forall i | 0 <= i < |r| ensures r[i] in vs || r[i] == x {
      if i < |vs| { assert r[i] == vs[i]; }
    }
    if Distinct(vs) {
      forall i, j | 0 <= i < j < |r| ensures r[i].name != r[j].name {
        if j < |vs| { assert r[i] == vs[i] && r[j] == vs[j]; }
        else { assert r[i] == vs[i]; }
      }
    }
  }

  /** `allDefinedVariables`. */
  class VariableRegistry {
    var variables: seq<Var>

    constructor ()
      ensures variables == []
    {
      variables := [];
    }

    /** `syncSaveAsVariable`. */
    method SyncSaveAsVariable(oldName: Option<Json>, newName: string, treeName: string, fieldKey: string)
      modifies this
      ensures variables == SyncedVariables(old(variables), oldName, newName, treeName, fieldKey)
    {
      var stale := StaleName(oldName);
      if stale.Some? {
        variables := RemoveNamed(variables, stale.value);
      }
      assert variables == WithoutStale(old(variables), oldName);
      if Trim(newName) != [] {
        var exists_ := HasName(variables, newName);
        if !exists_ {
          variables := variables + [Var(newName, SyncDescription(treeName, fieldKey))];
        }
      }
    }

    /** `allDefinedVariables = collectAllVariables()` on opening the parameter
      dialog; an exception in the scan leaves the registry as it was. */
    method Rescan(c: Option<Case>)
      modifies this
      ensures AllVariables(c).Some? ==> variables == AllVariables(c).value
      ensures AllVariables(c).None? ==> variables == old(variables)
    {
      var r := CollectAllVariables(c);
      if r.Some? {
        variables := r.value;
      }
    }
  }
}

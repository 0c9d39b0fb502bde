/** Test cases as the editor holds them: three sections of steps, each step a
    list of components with a JSON parameter object. The list edits the drop,
    duplicate, delete and save handlers perform on one case are functions here;
    the handlers themselves, which assign the result into the globals, are
    methods of `Workbench.Workbench`. */
module CaseModel {
  import opened Wrappers
  import opened Text
  import opened JsonValue

  // ---------------------------------------------------------------- data

  datatype Section = Preconditions | Steps | ExpectedResults

  /** A component: `type` is `kind` here. */
  datatype Component = Component(id: string, kind: string, name: string, params: Json)

  /** A precondition, test step or expected result. */
  datatype Step = Step(id: string, name: string, description: string, expanded: bool, components: seq<Component>)

  datatype Case = Case(id: string, name: string, preconditions: seq<Step>, steps: seq<Step>, expectedResults: seq<Step>)

  /** A preset component of the component picker. */
  datatype Preset = Preset(kind: string, name: string, params: Json)

  function SectionOf(c: Case, s: Section): seq<Step> {
    match s
    case Preconditions => c.preconditions
    case Steps => c.steps
    case ExpectedResults => c.expectedResults
  }

  function WithSection(c: Case, s: Section, items: seq<Step>): (r: Case)
    ensures SectionOf(r, s) == items
    ensures forall t :: t != s ==> SectionOf(r, t) == SectionOf(c, t)
    ensures r.id == c.id && r.name == c.name
  {
    match s
    case Preconditions => c.(preconditions := items)
    case Steps => c.(steps := items)
    case ExpectedResults => c.(expectedResults := items)
  }

  // ---------------------------------------------------------------- splice

  /** `xs.splice(i, 1)`. */
  function RemoveAt<T>(xs: seq<T>, i: nat): (r: seq<T>)
    requires i < |xs|
    ensures |r| == |xs| - 1
    ensures forall k :: 0 <= k < i ==> r[k] == xs[k]
    ensures forall k :: i <= k < |r| ==> r[k] == xs[k + 1]
  {
    xs[..i] + xs[i + 1..]
  }

  /** `xs.splice(i, 0, x)`. */
  function InsertAt<T>(xs: seq<T>, i: nat, x: T): (r: seq<T>)
    requires i <= |xs|
    ensures |r| == |xs| + 1 && r[i] == x
    ensures forall k :: 0 <= k < i ==> r[k] == xs[k]
    ensures forall k :: i < k < |r| ==> r[k] == xs[k - 1]
  {
    xs[..i] + [x] + xs[i..]
  }

  lemma RemoveInsert<T>(xs: seq<T>, i: nat, x: T)
    requires i <= |xs|
    ensures RemoveAt(InsertAt(xs, i, x), i) == xs
  {
  }

  lemma {:induction false} MultisetRemoveAt<T>(xs: seq<T>, i: nat)
    requires i < |xs|
    ensures multiset(RemoveAt(xs, i)) + multiset{xs[i]} == multiset(xs)
  {
    assert xs == xs[..i] + [xs[i]] + xs[i + 1..];
  }

  lemma {:induction false} MultisetInsertAt<T>(xs: seq<T>, i: nat, x: T)
    requires i <= |xs|
    ensures multiset(InsertAt(xs, i, x)) == multiset(xs) + multiset{x}
  {
    assert xs == xs[..i] + xs[i..];
  }

  /** The two splices of a drop: take the item out at `from`, put it back at
      `to` of the shortened list. */
  function Move<T>(xs: seq<T>, from: nat, to: nat): seq<T>
    requires from < |xs| && to < |xs|
  {
    InsertAt(RemoveAt(xs, from), to, xs[from])
  }

  /** A move is a permutation; the dragged item lands at `to`; with it taken out
      again, the remaining items are the others in their old relative order. */
  lemma MoveProperties<T>(xs: seq<T>, from: nat, to: nat)
    requires from < |xs| && to < |xs|
    ensures |Move(xs, from, to)| == |xs|
    ensures Move(xs, from, to)[to] == xs[from]
    ensures RemoveAt(Move(xs, from, to), to) == RemoveAt(xs, from)
    ensures multiset(Move(xs, from, to)) == multiset(xs)
  {
    MultisetRemoveAt(xs, from);
    MultisetInsertAt(RemoveAt(xs, from), to, xs[from]);
    RemoveInsert(RemoveAt(xs, from), to, xs[from]);
  }

  /** Where the template editor puts a dragged item: before the drop target,
      which has shifted one place left when the item came from before it. */
  function TemplateTarget(from: nat, to: nat): nat {
    if from < to then to - 1 else to
  }

  // ---------------------------------------------------------------- drag and drop

  /** A rendered draggable: a step (`data-type` is its section) or a component
      (`data-type` is `"component"`). */
  datatype DragItem =
    | StepItem(section: Section, index: nat)
    | ComponentItem(section: Section, step: nat, index: nat)

  /** The item exists in the case: drop handlers only see rendered items. */
  predicate ValidItem(c: Case, d: DragItem) {
    match d
    case StepItem(s, i) => i < |SectionOf(c, s)|
    case ComponentItem(s, st, i) => st < |SectionOf(c, s)| && i < |SectionOf(c, s)[st].components|
  }

  /** Dragged item and drop target live in the same list: the same kind, the
      same section and, for components, the same step. */
  predicate SameList(d: DragItem, t: DragItem) {
    d.section == t.section &&
    match d
    case StepItem(_, _) => t.StepItem?
    case ComponentItem(_, st, _) => t.ComponentItem? && t.step == st
  }

  /** Moves step `from` of section `s` to `to`. */
  function MoveStep(c: Case, s: Section, from: nat, to: nat): Case
    requires from < |SectionOf(c, s)| && to < |SectionOf(c, s)|
  {
    WithSection(c, s, Move(SectionOf(c, s), from, to))
  }

  /** Replaces the components of step `st` of section `s`. */
  function WithComponents(c: Case, s: Section, st: nat, comps: seq<Component>): (r: Case)
    requires st < |SectionOf(c, s)|
    ensures |SectionOf(r, s)| == |SectionOf(c, s)|
    ensures SectionOf(r, s)[st] == SectionOf(c, s)[st].(components := comps)
    ensures forall k :: 0 <= k < |SectionOf(c, s)| && k != st ==> SectionOf(r, s)[k] == SectionOf(c, s)[k]
    ensures forall t :: t != s ==> SectionOf(r, t) == SectionOf(c, t)
    ensures r.id == c.id && r.name == c.name
  {
    var items := SectionOf(c, s);
    WithSection(c, s, items[st := items[st].(components := comps)])
  }

  /** Moves component `from` of step `st` to `to`. */
  function MoveComponent(c: Case, s: Section, st: nat, from: nat, to: nat): Case
    requires st < |SectionOf(c, s)|
    requires from < |SectionOf(c, s)[st].components| && to < |SectionOf(c, s)[st].components|
  {
    WithComponents(c, s, st, Move(SectionOf(c, s)[st].components, from, to))
  }

  /** `handleDrop` of the main editor: the item is removed at its index and
      inserted at the target's index, with no adjustment. */
  function MainDrop(c: Case, d: DragItem, t: DragItem): (r: Case)
    requires ValidItem(c, d) && ValidItem(c, t)
    ensures !SameList(d, t) ==> r == c
  {
    if d == t || !SameList(d, t) then c
    else match d
      case StepItem(s, from) => MoveStep(c, s, from, t.index)
      case ComponentItem(s, st, from) => MoveComponent(c, s, st, from, t.index)
  }

  /** The drop handler of the template editor: as the main editor, but the item
      lands at `TemplateTarget(from, to)`. `d` is the item the target section's
      handler remembers from its last `dragstart`. */
  function TemplateDrop(c: Case, d: DragItem, t: DragItem): (r: Case)
    requires ValidItem(c, d) && ValidItem(c, t)
    ensures !SameList(d, t) ==> r == c
  {
    if d == t || !SameList(d, t) then c
    else match d
      case StepItem(s, from) => MoveStep(c, s, from, TemplateTarget(from, t.index))
      case ComponentItem(s, st, from) => MoveComponent(c, s, st, from, TemplateTarget(from, t.index))
  }

  /** A main-editor step drop within one section: the section is a permutation
      of the old one, the step lands at the target index, the other steps keep
      their relative order and the other sections are untouched. */
  lemma MainDropStep(c: Case, s: Section, from: nat, to: nat)
    requires from < |SectionOf(c, s)| && to < |SectionOf(c, s)|
    ensures var r := MainDrop(c, StepItem(s, from), StepItem(s, to));
      && |SectionOf(r, s)| == |SectionOf(c, s)|
      && SectionOf(r, s)[to] == SectionOf(c, s)[from]
      && RemoveAt(SectionOf(r, s), to) == RemoveAt(SectionOf(c, s), from)
      && multiset(SectionOf(r, s)) == multiset(SectionOf(c, s))
      && (forall t :: t != s ==> SectionOf(r, t) == SectionOf(c, t))
  {
    MoveProperties(SectionOf(c, s), from, to);
  }

  /** A main-editor component drop within one step: the step's components are a
      permutation, the component lands at the target index, the others keep
      their order, and nothing else in the case changes. */
  lemma MainDropComponent(c: Case, s: Section, st: nat, from: nat, to: nat)
    requires st < |SectionOf(c, s)|
    requires from < |SectionOf(c, s)[st].components| && to < |SectionOf(c, s)[st].components|
    ensures var r := MainDrop(c, ComponentItem(s, st, from), ComponentItem(s, st, to));
      var old_ := SectionOf(c, s)[st].components;
      var new_ := SectionOf(r, s)[st].components;
      && |SectionOf(r, s)| == |SectionOf(c, s)|
      && |new_| == |old_| && new_[to] == old_[from]
      && RemoveAt(new_, to) == RemoveAt(old_, from)
      && multiset(new_) == multiset(old_)
      && SectionOf(r, s)[st].(components := old_) == SectionOf(c, s)[st]
      && (forall k :: 0 <= k < |SectionOf(c, s)| && k != st ==> SectionOf(r, s)[k] == SectionOf(c, s)[k])
      && (forall t :: t != s ==> SectionOf(r, t) == SectionOf(c, t))
  {
    MoveProperties(SectionOf(c, s)[st].components, from, to);
  }

  /** A template-editor step drop: the step lands one place before the target
      when moving forward and at the target when moving backward; the section is
      still a permutation with the other steps in order. */
  lemma TemplateDropStep(c: Case, s: Section, from: nat, to: nat)
    requires from < |SectionOf(c, s)| && to < |SectionOf(c, s)|
    ensures var r := TemplateDrop(c, StepItem(s, from), StepItem(s, to));
      var land := if from < to then to - 1 else to;
      && |SectionOf(r, s)| == |SectionOf(c, s)|
      && SectionOf(r, s)[land] == SectionOf(c, s)[from]
      && RemoveAt(SectionOf(r, s), land) == RemoveAt(SectionOf(c, s), from)
      && multiset(SectionOf(r, s)) == multiset(SectionOf(c, s))
      && (forall t :: t != s ==> SectionOf(r, t) == SectionOf(c, t))
  {
    MoveProperties(SectionOf(c, s), from, TemplateTarget(from, to));
  }

  /** A template-editor component drop within one step. */
  lemma TemplateDropComponent(c: Case, s: Section, st: nat, from: nat, to: nat)
    requires st < |SectionOf(c, s)|
    requires from < |SectionOf(c, s)[st].components| && to < |SectionOf(c, s)[st].components|
    ensures var r := TemplateDrop(c, ComponentItem(s, st, from), ComponentItem(s, st, to));
      var land := if from < to then to - 1 else to;
      var old_ := SectionOf(c, s)[st].components;
      var new_ := SectionOf(r, s)[st].components;
      && |SectionOf(r, s)| == |SectionOf(c, s)|
      && |new_| == |old_| && new_[land] == old_[from]
      && RemoveAt(new_, land) == RemoveAt(old_, from)
      && multiset(new_) == multiset(old_)
      && SectionOf(r, s)[st].(components := old_) == SectionOf(c, s)[st]
      && (forall k :: 0 <= k < |SectionOf(c, s)| && k != st ==> SectionOf(r, s)[k] == SectionOf(c, s)[k])
      && (forall t :: t != s ==> SectionOf(r, t) == SectionOf(c, t))
  {
    MoveProperties(SectionOf(c, s)[st].components, from, TemplateTarget(from, to));
  }

  /** Dragging onto the very next item in the template editor changes nothing,
      while the main editor swaps the two. */
  lemma TemplateDropOntoNext(c: Case, s: Section, i: nat)
    requires i + 1 < |SectionOf(c, s)|
    ensures TemplateDrop(c, StepItem(s, i), StepItem(s, i + 1)) == c
    ensures SectionOf(MainDrop(c, StepItem(s, i), StepItem(s, i + 1)), s)[i] == SectionOf(c, s)[i + 1]
    ensures SectionOf(MainDrop(c, StepItem(s, i), StepItem(s, i + 1)), s)[i + 1] == SectionOf(c, s)[i]
  {
    var xs := SectionOf(c, s);
    assert Move(xs, i, i) == xs;
    match s
    case Preconditions =>
    case Steps =>
    case ExpectedResults =>
  }

  // ---------------------------------------------------------------- duplicate and delete

  /** The copy the main editor inserts: a deep copy with a fresh id and the
      ` (副本)` suffix. */
  function MainStepCopy(item: Step, now: nat): Step {
    item.(id := "item" + NatToString(now), name := item.name + " (副本)")
  }

  function MainComponentCopy(comp: Component, now: nat): Component {
    comp.(id := "c" + NatToString(now), name := comp.name + " (副本)")
  }

  /** The template editor's copies keep the name. */
  function TemplateStepCopy(item: Step, now: nat): Step {
    item.(id := "item" + NatToString(now))
  }

  function TemplateComponentCopy(comp: Component, now: nat): Component {
    comp.(id := "c" + NatToString(now))
  }

  /** Inserting a copy right after the original: taking the copy out again gives
      back the list, and the copy sits next to its original. */
  function DuplicateAt<T>(xs: seq<T>, i: nat, copy: T): (r: seq<T>)
    requires i < |xs|
    ensures |r| == |xs| + 1 && r[i] == xs[i] && r[i + 1] == copy
    ensures RemoveAt(r, i + 1) == xs
  {
    InsertAt(xs, i + 1, copy)
  }

  /** Duplicates step `i` of section `s`, with the copy made by `copy`. */
  function DuplicateStep(c: Case, s: Section, i: nat, copy: Step): (r: Case)
    requires i < |SectionOf(c, s)|
    ensures SectionOf(r, s) == DuplicateAt(SectionOf(c, s), i, copy)
    ensures forall t :: t != s ==> SectionOf(r, t) == SectionOf(c, t)
  {
    WithSection(c, s, DuplicateAt(SectionOf(c, s), i, copy))
  }

  /** Duplicates component `i` of step `st`; the step's other fields, the other
      steps and the other sections are untouched. */
  function DuplicateComponent(c: Case, s: Section, st: nat, i: nat, copy: Component): (r: Case)
    requires st < |SectionOf(c, s)| && i < |SectionOf(c, s)[st].components|
    ensures |SectionOf(r, s)| == |SectionOf(c, s)|
    ensures SectionOf(r, s)[st].components == DuplicateAt(SectionOf(c, s)[st].components, i, copy)
    ensures SectionOf(r, s)[st].(components := SectionOf(c, s)[st].components) == SectionOf(c, s)[st]
    ensures forall k :: 0 <= k < |SectionOf(c, s)| && k != st ==> SectionOf(r, s)[k] == SectionOf(c, s)[k]
    ensures forall t :: t != s ==> SectionOf(r, t) == SectionOf(c, t)
  {
    WithComponents(c, s, st, DuplicateAt(SectionOf(c, s)[st].components, i, copy))
  }

  /** Deletes step `i` of section `s`. */
  function DeleteStep(c: Case, s: Section, i: nat): (r: Case)
    requires i < |SectionOf(c, s)|
    ensures SectionOf(r, s) == RemoveAt(SectionOf(c, s), i)
    ensures forall t :: t != s ==> SectionOf(r, t) == SectionOf(c, t)
  {
    WithSection(c, s, RemoveAt(SectionOf(c, s), i))
  }

  /** Deletes component `i` of step `st`; the step's other fields, the other
      steps and the other sections are untouched. */
  function DeleteComponent(c: Case, s: Section, st: nat, i: nat): (r: Case)
    requires st < |SectionOf(c, s)| && i < |SectionOf(c, s)[st].components|
    ensures |SectionOf(r, s)| == |SectionOf(c, s)|
    ensures SectionOf(r, s)[st].components == RemoveAt(SectionOf(c, s)[st].components, i)
    ensures SectionOf(r, s)[st].(components := SectionOf(c, s)[st].components) == SectionOf(c, s)[st]
    ensures forall k :: 0 <= k < |SectionOf(c, s)| && k != st ==> SectionOf(r, s)[k] == SectionOf(c, s)[k]
    ensures forall t :: t != s ==> SectionOf(r, t) == SectionOf(c, t)
  {
    WithComponents(c, s, st, RemoveAt(SectionOf(c, s)[st].components, i))
  }

  /** Duplicate, then delete the copy: the case is back as it was. */
  lemma DuplicateThenDelete(c: Case, s: Section, i: nat, copy: Step)
    requires i < |SectionOf(c, s)|
    ensures DeleteStep(DuplicateStep(c, s, i, copy), s, i + 1) == c
  {
    var r := DeleteStep(DuplicateStep(c, s, i, copy), s, i + 1);
    assert SectionOf(r, Preconditions) == SectionOf(c, Preconditions);
    assert SectionOf(r, Steps) == SectionOf(c, Steps);
    assert SectionOf(r, ExpectedResults) == SectionOf(c, ExpectedResults);
  }

  // ---------------------------------------------------------------- save step

  /** The id of the `index`-th component copied from a preset step. */
  function PresetComponentId(now: nat, index: nat): string {
    "c" + NatToString(now) + "_" + NatToString(index)
  }

  lemma PresetComponentIdsDistinct(now: nat, i: nat, j: nat)
    requires PresetComponentId(now, i) == PresetComponentId(now, j)
    ensures i == j
  {
    var p := "c" + NatToString(now) + "_";
    var a, b := PresetComponentId(now, i), PresetComponentId(now, j);
    assert a == p + NatToString(i) && b == p + NatToString(j);
    assert NatToString(i) == a[|p|..];
    assert NatToString(j) == b[|p|..];
    NatToStringInjective(i, j);
  }

  /** The components of a new step: the preset step's components, each with the
      id `PresetComponentId(now, index)`. */
  function PresetComponents(presets: seq<Preset>, now: nat): (r: seq<Component>)
    ensures |r| == |presets|
    ensures forall i :: 0 <= i < |r| ==>
      r[i] == Component(PresetComponentId(now, i), presets[i].kind, presets[i].name, presets[i].params)
  {
    seq(|presets|, i requires 0 <= i < |presets| =>
      Component(PresetComponentId(now, i), presets[i].kind, presets[i].name, presets[i].params))
  }

  /** The step a save without an index appends. */
  function NewStep(name: string, description: string, preset: Option<seq<Preset>>, now: nat): (r: Step)
    ensures r.expanded && r.name == name && r.description == description
    ensures |r.components| == |preset.GetOr([])|
    ensures forall i, j :: 0 <= i < j < |r.components| ==> r.components[i].id != r.components[j].id
  {
    var comps := PresetComponents(preset.GetOr([]), now);
    forall i, j | 0 <= i < j < |comps| ensures comps[i].id != comps[j].id {
      if comps[i].id == comps[j].id { PresetComponentIdsDistinct(now, i, j); }
    }
    Step("item" + NatToString(now), name, description, true, comps)
  }

  /** `saveStep` / `saveStepForHistoryEdit` on one case: a blank name is rejected;
      with an index the step gets the trimmed name and description and keeps
      everything else; without one a new expanded step is appended. */
  function SaveStep(c: Case, s: Section, editing: Option<nat>, nameInput: string, descInput: string,
                    preset: Option<seq<Preset>>, now: nat): (r: Option<Case>)
    requires editing.Some? ==> editing.value < |SectionOf(c, s)|
    ensures r.None? <==> Blank(nameInput)
    ensures r.Some? ==> forall t :: t != s ==> SectionOf(r.value, t) == SectionOf(c, t)
    ensures r.Some? && editing.Some? ==>
      var i := editing.value;
      && |SectionOf(r.value, s)| == |SectionOf(c, s)|
      && SectionOf(r.value, s)[i]
         == SectionOf(c, s)[i].(name := Trim(nameInput), description := Trim(descInput))
      && forall k :: 0 <= k < |SectionOf(c, s)| && k != i ==> SectionOf(r.value, s)[k] == SectionOf(c, s)[k]
    ensures r.Some? && editing.None? ==>
      SectionOf(r.value, s) == SectionOf(c, s) + [NewStep(Trim(nameInput), Trim(descInput), preset, now)]
  {
    var name := Trim(nameInput);
    if name == [] then None
    else
      var items := SectionOf(c, s);
      match editing
      case Some(i) => Some(WithSection(c, s, items[i := items[i].(name := name, description := Trim(descInput))]))
      case None => Some(WithSection(c, s, items + [NewStep(name, Trim(descInput), preset, now)]))
  }

  // ---------------------------------------------------------------- save component

  /** `presets.find(p => p.name === name)`. */
  function FindPreset(presets: seq<Preset>, name: string): (r: Option<nat>)
    ensures r.Some? ==> r.value < |presets| && presets[r.value].name == name
    ensures r.Some? ==> forall k :: 0 <= k < r.value ==> presets[k].name != name
    ensures r.None? ==> forall k :: 0 <= k < |presets| ==> presets[k].name != name
    decreases |presets|
  {
    if presets == [] then None
    else if presets[0].name == name then Some(0)
    else match FindPreset(presets[1..], name)
      case None => None
      case Some(k) => Some(k + 1)
  }

  /** The saved component's type: the first preset of that name, else the preset
      picked in the dropdown, else `"input"`. */
  function ResolveComponentType(presets: seq<Preset>, compName: string, selected: Option<Preset>): (t: string)
    ensures (exists k :: 0 <= k < |presets| && presets[k].name == compName) ==>
      exists k :: 0 <= k < |presets| && presets[k].name == compName && t == presets[k].kind
                  && (forall j :: 0 <= j < k ==> presets[j].name != compName)
    ensures (forall k :: 0 <= k < |presets| ==> presets[k].name != compName) ==>
      t == if selected.Some? then selected.value.kind else "input"
  {
    match FindPreset(presets, compName)
    case Some(k) => presets[k].kind
    case None => if selected.Some? then selected.value.kind else "input"
  }

  /** The inputs of the component dialog. */
  datatype ComponentForm = ComponentForm(
    description: string,          // the function-description text
    componentName: string,        // the component-name (type) text
    parsedParams: Option<Json>,   // `JSON.parse` of the parameter text; None when it throws
    selected: Option<Preset>)     // the preset picked in the dropdown

  /** Checks the dialog as both save handlers do: a blank description, a blank
      component name or unparsable parameters reject the save; otherwise it gives
      the type, name and parameters to store. */
  function CheckComponentForm(f: ComponentForm, presets: seq<Preset>): (r: Option<(string, string, Json)>)
    ensures r.Some? <==> !Blank(f.description) && !Blank(f.componentName) && f.parsedParams.Some?
    ensures r.Some? ==> r.value == (ResolveComponentType(presets, Trim(f.componentName), f.selected),
                                    Trim(f.description), f.parsedParams.value)
  {
    var funcDesc := Trim(f.description);
    var compName := Trim(f.componentName);
    if funcDesc == [] || compName == [] || f.parsedParams.None? then None
    else Some((ResolveComponentType(presets, compName, f.selected), funcDesc, f.parsedParams.value))
  }

  /** Stores a checked component: editing replaces type, name and parameters and
      keeps the id; adding appends a component with id `"c" + now`. */
  function UpsertComponent(comps: seq<Component>, editing: Option<nat>, kind: string, name: string,
                           params: Json, now: nat): (r: seq<Component>)
    requires editing.Some? ==> editing.value < |comps|
    ensures editing.Some? ==>
      |r| == |comps| && r[editing.value].id == comps[editing.value].id
      && r[editing.value] == Component(comps[editing.value].id, kind, name, params)
      && forall k :: 0 <= k < |comps| && k != editing.value ==> r[k] == comps[k]
    ensures editing.None? ==> r == comps + [Component("c" + NatToString(now), kind, name, params)]
  {
    match editing
    case Some(i) => comps[i := comps[i].(kind := kind, name := name, params := params)]
    case None => comps + [Component("c" + NatToString(now), kind, name, params)]
  }

  /** A component save on one case: rejected as `CheckComponentForm` says, and
      otherwise the step's components become the upsert of the checked values. */
  function SaveComponent(c: Case, s: Section, st: nat, editing: Option<nat>, f: ComponentForm,
                         presets: seq<Preset>, now: nat): (r: Option<Case>)
    requires st < |SectionOf(c, s)|
    requires editing.Some? ==> editing.value < |SectionOf(c, s)[st].components|
    ensures r.None? <==> CheckComponentForm(f, presets).None?
    ensures r.Some? ==>
      var (kind, name, params) := CheckComponentForm(f, presets).value;
      r.value == WithComponents(c, s, st, UpsertComponent(SectionOf(c, s)[st].components, editing, kind, name, params, now))
  {
    match CheckComponentForm(f, presets)
    case None => None
    case Some((kind, name, params)) =>
      Some(WithComponents(c, s, st, UpsertComponent(SectionOf(c, s)[st].components, editing, kind, name, params, now)))
  }

  // ---------------------------------------------------------------- templates

  /** A template derived from a case: a deep copy with id `TEMPLATE_<now>` and the
      ` (模板)` suffix; the sections are the case's. */
  function DeriveTemplate(c: Case, now: nat): (r: Case)
    ensures r.id == "TEMPLATE_" + NatToString(now) && r.name == c.name + " (模板)"
    ensures forall s :: SectionOf(r, s) == SectionOf(c, s)
  {
    c.(id := "TEMPLATE_" + NatToString(now), name := c.name + " (模板)")
  }

  /** `list.findIndex(s => s.id === id)`. */
  function FindCase(cases: seq<Case>, id: string): (r: Option<nat>)
    ensures r.Some? ==> r.value < |cases| && cases[r.value].id == id
    ensures r.Some? ==> forall k :: 0 <= k < r.value ==> cases[k].id != id
    ensures r.None? ==> forall k :: 0 <= k < |cases| ==> cases[k].id != id
    decreases |cases|
  {
    if cases == [] then None
    else if cases[0].id == id then Some(0)
    else match FindCase(cases[1..], id)
      case None => None
      case Some(k) => Some(k + 1)
  }
}

/** The editor's global state: the cases of the main editor with the backup
    taken when its dialog opens, and the history-case editor with its template
    slot. A `Session` is a snapshot of the globals and the functions on it say
    what each handler does; `Workbench` holds the globals as fields and its
    methods are the handlers. */
module Workbench {
  import opened Wrappers
  import opened Text
  import opened CaseModel
  import opened Registry

  // ---------------------------------------------------------------- edits of one case

  /** An edit a handler of the main or the template editor makes to one case.
      Fresh ids come in as `now` and the confirm dialog's answer as
      `confirmed`. */
  datatype Edit =
    | Drop(dragged: DragItem, target: DragItem)
    | CopyStep(section: Section, index: nat, now: nat)
    | CopyComponent(section: Section, step: nat, index: nat, now: nat)
    | DeleteStepAt(section: Section, index: nat, confirmed: bool)
    | DeleteComponentAt(section: Section, step: nat, index: nat, confirmed: bool)
    | ToggleExpanded(section: Section, index: nat)
    | StoreStep(section: Section, editing: Option<nat>, nameInput: string, descInput: string,
                preset: Option<seq<Preset>>, now: nat)
    | StoreComponent(section: Section, step: nat, editing: Option<nat>, form: ComponentForm,
                     presets: seq<Preset>, now: nat)

  /** The edit addresses items that exist: the handlers only see rendered
      items and open dialogs on them. */
  predicate ValidEdit(c: Case, e: Edit) {
    match e
    case Drop(d, t) => ValidItem(c, d) && ValidItem(c, t)
    case CopyStep(s, i, _) => i < |SectionOf(c, s)|
    case CopyComponent(s, st, i, _) => ValidItem(c, ComponentItem(s, st, i))
    case DeleteStepAt(s, i, _) => i < |SectionOf(c, s)|
    case DeleteComponentAt(s, st, i, _) => ValidItem(c, ComponentItem(s, st, i))
    case ToggleExpanded(s, i) => i < |SectionOf(c, s)|
    case StoreStep(s, editing, _, _, _, _) => editing.Some? ==> editing.value < |SectionOf(c, s)|
    case StoreComponent(s, st, editing, _, _, _) =>
      st < |SectionOf(c, s)| && (editing.Some? ==> editing.value < |SectionOf(c, s)[st].components|)
  }

  /** Flips the `expanded` flag of step `i`: the expand button of the main
      editor, of the template editor and of the read-only history view. */
  function ToggleStep(c: Case, s: Section, i: nat): (r: Case)
    requires i < |SectionOf(c, s)|
    ensures |SectionOf(r, s)| == |SectionOf(c, s)|
    ensures SectionOf(r, s)[i].expanded == !SectionOf(c, s)[i].expanded
    ensures SectionOf(r, s)[i].(expanded := SectionOf(c, s)[i].expanded) == SectionOf(c, s)[i]
    ensures forall k :: 0 <= k < |SectionOf(c, s)| && k != i ==> SectionOf(r, s)[k] == SectionOf(c, s)[k]
    ensures forall t :: t != s ==> SectionOf(r, t) == SectionOf(c, t)
  {
    var items := SectionOf(c, s);
    WithSection(c, s, items[i := items[i].(expanded := !items[i].expanded)])
  }

  /** The case after an edit; the template editor's flavour differs in where a
      drop lands and in keeping the name of a copy. A save the dialog rejects
      and a delete that is not confirmed leave the case as it was. Every edit
      keeps the case's id and name. */
  function EditCase(c: Case, e: Edit, inTemplate: bool): (r: Case)
    requires ValidEdit(c, e)
    ensures r.id == c.id && r.name == c.name
  {
    match e
    case Drop(d, t) => if inTemplate then TemplateDrop(c, d, t) else MainDrop(c, d, t)
    case CopyStep(s, i, now) =>
      var item := SectionOf(c, s)[i];
      DuplicateStep(c, s, i, if inTemplate then TemplateStepCopy(item, now) else MainStepCopy(item, now))
    case CopyComponent(s, st, i, now) =>
      var comp := SectionOf(c, s)[st].components[i];
      DuplicateComponent(c, s, st, i, if inTemplate then TemplateComponentCopy(comp, now) else MainComponentCopy(comp, now))
    case DeleteStepAt(s, i, confirmed) => if confirmed then DeleteStep(c, s, i) else c
    case DeleteComponentAt(s, st, i, confirmed) => if confirmed then DeleteComponent(c, s, st, i) else c
    case ToggleExpanded(s, i) => ToggleStep(c, s, i)
    case StoreStep(s, editing, nameInput, descInput, preset, now) =>
      SaveStep(c, s, editing, nameInput, descInput, preset, now).GetOr(c)
    case StoreComponent(s, st, editing, form, presets, now) =>
      SaveComponent(c, s, st, editing, form, presets, now).GetOr(c)
  }

  /** Expanding and collapsing again gives the case back. */
  lemma ToggleTwice(c: Case, s: Section, i: nat)
    requires i < |SectionOf(c, s)|
    ensures ToggleStep(ToggleStep(c, s, i), s, i) == c
  {
    var r := ToggleStep(ToggleStep(c, s, i), s, i);
    assert SectionOf(r, s) == SectionOf(c, s);
    assert SectionOf(r, Preconditions) == SectionOf(c, Preconditions);
    assert SectionOf(r, Steps) == SectionOf(c, Steps);
    assert SectionOf(r, ExpectedResults) == SectionOf(c, ExpectedResults);
  }

  // ---------------------------------------------------------------- the globals

  /** A snapshot of the globals; `testCasesBackup`, `historyCasesBackup`,
      `caseTemplate`, `savedCaseTemplate` and `savedTemplateIndex` are `null`
      when `None`. */
  datatype Session = Session(
    testCases: seq<Case>,
    currentCaseIndex: nat,
    testCasesBackup: Option<seq<Case>>,
    tempSelectedCases: seq<Case>,
    historyCasesForEdit: seq<Case>,
    historyCasesBackup: Option<seq<Case>>,
    isEditingHistoryCase: bool,
    caseTemplate: Option<Case>,
    savedCaseTemplate: Option<Case>,
    savedTemplateIndex: Option<nat>,
    templateCaseIndex: nat,
    currentEditCaseIndex: nat,
    isViewingTemplate: bool)

  /** The values the globals are declared with. */
  function InitialSession(): Session {
    Session([], 0, None, [], [], None, false, None, None, None, 0, 0, false)
  }

  predicate HasCurrentCase(s: Session) {
    s.currentCaseIndex < |s.testCases|
  }

  function CurrentCase(s: Session): Case
    requires HasCurrentCase(s)
  {
    s.testCases[s.currentCaseIndex]
  }

  /** The case `collectAllVariables` scans: the main editor's current case;
      without one, the template while it is viewed and otherwise the viewed
      history case. */
  function CaseToScan(s: Session): (r: Option<Case>)
    ensures HasCurrentCase(s) ==> r == Some(CurrentCase(s))
    ensures !HasCurrentCase(s) && s.isViewingTemplate ==> r == s.caseTemplate
    ensures !HasCurrentCase(s) && !s.isViewingTemplate ==>
      r == if s.currentEditCaseIndex < |s.historyCasesForEdit| then Some(s.historyCasesForEdit[s.currentEditCaseIndex]) else None
  {
    if HasCurrentCase(s) then Some(CurrentCase(s))
    else if s.isViewingTemplate then s.caseTemplate
    else if s.currentEditCaseIndex < |s.historyCasesForEdit| then Some(s.historyCasesForEdit[s.currentEditCaseIndex])
    else None
  }

  // ---------------------------------------------------------------- main editor

  /** `openModal`: the backup is taken whether or not one is held already. */
  function ModalOpened(s: Session): Session {
    s.(testCasesBackup := Some(s.testCases))
  }

  /** `cancelAndCloseModal`: the backup, when held, comes back and is dropped. */
  function ModalCancelled(s: Session): Session {
    if s.testCasesBackup.Some? then s.(testCases := s.testCasesBackup.value, testCasesBackup := None) else s
  }

  /** `saveAndCloseModal`: the edits stay and the backup is dropped. */
  function ModalSaved(s: Session): Session {
    s.(testCasesBackup := None)
  }

  /** A click on a case in the main editor's list. */
  function CaseSelected(s: Session, index: nat): Session {
    s.(currentCaseIndex := index)
  }

  /** An edit by a handler of the main editor goes to the current case and to
      nothing else. */
  function MainEdited(s: Session, e: Edit): (r: Session)
    requires HasCurrentCase(s) && ValidEdit(CurrentCase(s), e)
    ensures |r.testCases| == |s.testCases|
    ensures r.testCases[s.currentCaseIndex] == EditCase(CurrentCase(s), e, false)
    ensures forall k :: 0 <= k < |s.testCases| && k != s.currentCaseIndex ==> r.testCases[k] == s.testCases[k]
    ensures r.(testCases := s.testCases) == s
  {
    s.(testCases := s.testCases[s.currentCaseIndex := EditCase(CurrentCase(s), e, false)])
  }

  // ---------------------------------------------------------------- template editor

  /** An edit by a handler of the template editor goes to `caseTemplate` and to
      nothing else; the history cases themselves are never written. */
  function TemplateEdited(s: Session, e: Edit): (r: Session)
    requires s.caseTemplate.Some? && ValidEdit(s.caseTemplate.value, e)
    ensures r.caseTemplate.Some? && r.caseTemplate.value.id == s.caseTemplate.value.id
    ensures r.caseTemplate == Some(EditCase(s.caseTemplate.value, e, true))
    ensures r.(caseTemplate := s.caseTemplate) == s
  {
    s.(caseTemplate := Some(EditCase(s.caseTemplate.value, e, true)))
  }

  /** Where `saveComponent` writes. */
  datatype Target = TemplateCase | HistoryCase(index: nat) | MainCase(index: nat)

  /** `saveComponent`'s dispatch: the template when a history dialog edits the
      viewed template, the viewed history case for another history dialog, and
      the main editor's current case otherwise. */
  function ComponentTarget(s: Session): (t: Target)
    ensures t.TemplateCase? <==> s.isEditingHistoryCase && s.isViewingTemplate && s.caseTemplate.Some?
    ensures t.MainCase? <==> !s.isEditingHistoryCase
  {
    if s.isEditingHistoryCase && s.isViewingTemplate && s.caseTemplate.Some? then TemplateCase
    else if s.isEditingHistoryCase then HistoryCase(s.currentEditCaseIndex)
    else MainCase(s.currentCaseIndex)
  }

  function TargetCase(s: Session, t: Target): Option<Case> {
    match t
    case TemplateCase => s.caseTemplate
    case HistoryCase(i) => if i < |s.historyCasesForEdit| then Some(s.historyCasesForEdit[i]) else None
    case MainCase(i) => if i < |s.testCases| then Some(s.testCases[i]) else None
  }

  /** `saveComponent`: the checked component lands in the dispatched case. */
  function ComponentSaved(s: Session, e: Edit): (r: Session)
    requires e.StoreComponent?
    requires var c := TargetCase(s, ComponentTarget(s)); c.Some? && ValidEdit(c.value, e)
    ensures TargetCase(r, ComponentTarget(s)) == Some(EditCase(TargetCase(s, ComponentTarget(s)).value, e, false))
    ensures ComponentTarget(s).TemplateCase? ==> r.(caseTemplate := s.caseTemplate) == s
    ensures ComponentTarget(s).HistoryCase? ==> r.(historyCasesForEdit := s.historyCasesForEdit) == s
    ensures ComponentTarget(s).MainCase? ==> r.(testCases := s.testCases) == s
  {
    var c := EditCase(TargetCase(s, ComponentTarget(s)).value, e, false);
    match ComponentTarget(s)
    case TemplateCase => s.(caseTemplate := Some(c))
    case HistoryCase(i) => s.(historyCasesForEdit := s.historyCasesForEdit[i := c])
    case MainCase(i) => s.(testCases := s.testCases[i := c])
  }

  /** Opening a step or component dialog records which editor it serves. */
  function EditDialogOpened(s: Session, forHistory: bool): Session {
    s.(isEditingHistoryCase := forHistory)
  }

  /** `toggleSelect` on the search result with id `id`: an unknown id changes
      nothing; a selected case is taken out; otherwise a copy is appended, and
      when it is the only one a template is derived from it and saved at once. */
  function SelectionToggled(s: Session, results: seq<Case>, id: string, now: nat): (r: Session)
    ensures r.(tempSelectedCases := s.tempSelectedCases, caseTemplate := s.caseTemplate,
               savedCaseTemplate := s.savedCaseTemplate, savedTemplateIndex := s.savedTemplateIndex) == s
  {
    match FindCase(results, id)
    case None => s
    case Some(k) =>
      match FindCase(s.tempSelectedCases, id)
      case Some(j) => s.(tempSelectedCases := RemoveAt(s.tempSelectedCases, j))
      case None =>
        var selected := s.tempSelectedCases + [results[k]];
        if |selected| == 1 then
          var template := DeriveTemplate(results[k], now);
          s.(tempSelectedCases := selected, caseTemplate := Some(template),
             savedCaseTemplate := Some(template), savedTemplateIndex := Some(0))
        else s.(tempSelectedCases := selected)
  }

  /** `openHistoryCaseEditModal`: with nothing selected nothing happens;
      otherwise the selection is copied for editing and backed up, the saved
      template is resumed when its index still fits, a template is derived
      from the first case otherwise, and the template is shown. */
  function HistoryEditOpened(s: Session, now: nat): (r: Session)
    ensures s.tempSelectedCases == [] ==> r == s
    ensures s.tempSelectedCases != [] ==>
      && r.historyCasesForEdit == s.tempSelectedCases
      && r.historyCasesBackup == Some(s.tempSelectedCases)
      && r.templateCaseIndex < |s.tempSelectedCases|
      && r.currentEditCaseIndex == r.templateCaseIndex
      && r.isViewingTemplate
      && r.caseTemplate.Some?
    ensures s.tempSelectedCases != [] && s.savedCaseTemplate.Some? && s.savedTemplateIndex.Some?
            && s.savedTemplateIndex.value < |s.tempSelectedCases| ==>
      r.caseTemplate == s.savedCaseTemplate && r.templateCaseIndex == s.savedTemplateIndex.value
    ensures s.tempSelectedCases != []
            && !(s.savedCaseTemplate.Some? && s.savedTemplateIndex.Some? && s.savedTemplateIndex.value < |s.tempSelectedCases|) ==>
      r.caseTemplate == Some(DeriveTemplate(s.tempSelectedCases[0], now)) && r.templateCaseIndex == 0
    ensures s.tempSelectedCases != [] ==>
      r.(historyCasesForEdit := s.historyCasesForEdit, historyCasesBackup := s.historyCasesBackup,
         templateCaseIndex := s.templateCaseIndex, caseTemplate := s.caseTemplate,
         currentEditCaseIndex := s.currentEditCaseIndex, isViewingTemplate := s.isViewingTemplate) == s
  {
    if |s.tempSelectedCases| == 0 then s
    else
      var forEdit := s.tempSelectedCases;
      if s.savedCaseTemplate.Some? && s.savedTemplateIndex.Some? && s.savedTemplateIndex.value < |forEdit| then
        s.(historyCasesForEdit := forEdit, historyCasesBackup := Some(forEdit),
           templateCaseIndex := s.savedTemplateIndex.value, caseTemplate := s.savedCaseTemplate,
           currentEditCaseIndex := s.savedTemplateIndex.value, isViewingTemplate := true)
      else
        s.(historyCasesForEdit := forEdit, historyCasesBackup := Some(forEdit),
           templateCaseIndex := 0, caseTemplate := Some(DeriveTemplate(forEdit[0], now)),
           currentEditCaseIndex := 0, isViewingTemplate := true)
  }

  /** The expand button of the read-only history view: it flips the flag in
      the viewed history case, and nothing else changes. */
  function HistoryStepToggled(s: Session, sec: Section, i: nat): (r: Session)
    requires s.currentEditCaseIndex < |s.historyCasesForEdit|
    requires i < |SectionOf(s.historyCasesForEdit[s.currentEditCaseIndex], sec)|
    ensures |r.historyCasesForEdit| == |s.historyCasesForEdit|
    ensures r.historyCasesForEdit[s.currentEditCaseIndex]
            == ToggleStep(s.historyCasesForEdit[s.currentEditCaseIndex], sec, i)
    ensures forall k :: 0 <= k < |s.historyCasesForEdit| && k != s.currentEditCaseIndex ==>
      r.historyCasesForEdit[k] == s.historyCasesForEdit[k]
    ensures r.(historyCasesForEdit := s.historyCasesForEdit) == s
  {
    var k := s.currentEditCaseIndex;
    s.(historyCasesForEdit := s.historyCasesForEdit[k := ToggleStep(s.historyCasesForEdit[k], sec, i)])
  }

  /** `closeHistoryCaseEditModal`: the working template is dropped. */
  function HistoryEditClosed(s: Session): Session {
    s.(caseTemplate := None)
  }

  /** `saveHistoryCaseEdit`: only the template and its index are saved, and the
      history backup is dropped. */
  function HistoryEditSaved(s: Session): Session {
    var saved := if s.caseTemplate.Some? then s.(savedCaseTemplate := s.caseTemplate, savedTemplateIndex := Some(s.templateCaseIndex))
                 else s;
    saved.(historyCasesBackup := None)
  }

  /** `handleSetAsTemplate`: a checked box makes the viewed history case the
      template. Past the end of the list the copy throws, after the index has
      been set. */
  function TemplateSet(s: Session, checked: bool, now: nat): Session {
    if !checked then s
    else if s.currentEditCaseIndex < |s.historyCasesForEdit| then
      s.(templateCaseIndex := s.currentEditCaseIndex,
         caseTemplate := Some(DeriveTemplate(s.historyCasesForEdit[s.currentEditCaseIndex], now)))
    else s.(templateCaseIndex := s.currentEditCaseIndex)
  }

  /** `saveCaseName`: a blank name is refused; otherwise the template is renamed
      and saved at once. */
  function CaseNameSaved(s: Session, input: string): Session {
    var newName := Trim(input);
    if newName == [] || s.caseTemplate.None? then s
    else
      var renamed := s.caseTemplate.value.(name := newName);
      s.(caseTemplate := Some(renamed), savedCaseTemplate := Some(renamed))
  }

  /** A click on a history case in the edit dialog's list. */
  function EditCaseSelected(s: Session, index: nat): Session {
    s.(currentEditCaseIndex := index, isViewingTemplate := false)
  }

  /** A click on the template in the edit dialog. */
  function TemplateViewed(s: Session): Session {
    s.(isViewingTemplate := true)
  }

  // ---------------------------------------------------------------- properties

  /** What the user can do between opening and closing the main dialog. */
  datatype MainAction =
    | EditCurrent(edit: Edit)
    | SelectCase(index: nat)
    | OpenDialog(forHistory: bool)
    | SaveComponentDialog(store: Edit)

  predicate Allowed(s: Session, a: MainAction) {
    match a
    case EditCurrent(e) => HasCurrentCase(s) && ValidEdit(CurrentCase(s), e)
    case SelectCase(_) => true
    case OpenDialog(_) => true
    case SaveComponentDialog(e) =>
      e.StoreComponent? && var c := TargetCase(s, ComponentTarget(s)); c.Some? && ValidEdit(c.value, e)
  }

  function Perform(s: Session, a: MainAction): Session
    requires Allowed(s, a)
  {
    match a
    case EditCurrent(e) => MainEdited(s, e)
    case SelectCase(i) => CaseSelected(s, i)
    case OpenDialog(forHistory) => EditDialogOpened(s, forHistory)
    case SaveComponentDialog(e) => ComponentSaved(s, e)
  }

  /** `t` follows `s` by one user action in the main dialog. */
  ghost predicate MainStep(s: Session, t: Session) {
    exists a :: Allowed(s, a) && t == Perform(s, a)
  }

  /** No action in the main dialog touches the backup. */
  lemma ActionKeepsBackup(s: Session, a: MainAction)
    requires Allowed(s, a)
    ensures Perform(s, a).testCasesBackup == s.testCasesBackup
  {
    if a.SaveComponentDialog? {
      var t := ComponentTarget(s);
      assert t.TemplateCase? || t.HistoryCase? || t.MainCase?;
    }
  }

  /** However the cases are edited after `openModal`, `cancelAndCloseModal`
      gives back the cases as they were when the dialog opened and drops the
      backup. */
  lemma {:induction false} CancelUndoesEdits(s: Session, run: seq<Session>)
    requires |run| >= 1 && run[0] == ModalOpened(s)
    requires forall k :: 0 <= k < |run| - 1 ==> MainStep(run[k], run[k + 1])
    ensures ModalCancelled(run[|run| - 1]).testCases == s.testCases
    ensures ModalCancelled(run[|run| - 1]).testCasesBackup.None?
  {
    BackupHeld(s, run, |run| - 1);
  }

  lemma {:induction false} BackupHeld(s: Session, run: seq<Session>, n: nat)
    requires n < |run| && run[0] == ModalOpened(s)
    requires forall k :: 0 <= k < |run| - 1 ==> MainStep(run[k], run[k + 1])
    ensures run[n].testCasesBackup == Some(s.testCases)
  {
    if n > 0 {
      BackupHeld(s, run, n - 1);
      assert MainStep(run[n - 1], run[n]);
      var a :| Allowed(run[n - 1], a) && run[n] == Perform(run[n - 1], a);
      ActionKeepsBackup(run[n - 1], a);
    }
  }

  /** `saveAndCloseModal` keeps the edits and only drops the backup. */
  lemma SaveKeepsEdits(s: Session)
    ensures ModalSaved(s).testCases == s.testCases
    ensures ModalSaved(s).testCasesBackup.None?
    ensures ModalSaved(s).(testCasesBackup := s.testCasesBackup) == s
  {
  }

  /** `openModal` has no guard: opening it again while it is open replaces the
      backup, so a later cancel returns the cases as they were at the second
      opening. */
  lemma ReopenReplacesBackup(s: Session, t: Session)
    requires MainStep(ModalOpened(s), t)
    ensures ModalCancelled(ModalOpened(t)).testCases == t.testCases
  {
  }

  /** Toggling a case that was not selected, and then toggling it again, leaves
      the selection as it was. */
  lemma ToggleSelectTwice(s: Session, results: seq<Case>, id: string, now: nat, later: nat)
    requires FindCase(results, id).Some? && FindCase(s.tempSelectedCases, id).None?
    ensures SelectionToggled(SelectionToggled(s, results, id, now), results, id, later).tempSelectedCases
            == s.tempSelectedCases
  {
    var k := FindCase(results, id).value;
    var selected := s.tempSelectedCases + [results[k]];
    var once := SelectionToggled(s, results, id, now);
    assert once.tempSelectedCases == selected;
    assert FindCase(selected, id) == Some(|s.tempSelectedCases|) by {
      FindCaseAppend(s.tempSelectedCases, results[k], id);
    }
    assert RemoveAt(selected, |s.tempSelectedCases|) == s.tempSelectedCases;
  }

  lemma {:induction false} FindCaseAppend(cases: seq<Case>, c: Case, id: string)
    requires FindCase(cases, id).None? && c.id == id
    ensures FindCase(cases + [c], id) == Some(|cases|)
    decreases |cases|
  {
    if cases != [] {
      assert (cases + [c])[1..] == cases[1..] + [c];
      FindCaseAppend(cases[1..], c, id);
    }
  }

  /** Selecting the first case derives a template from it and saves it
      straight away, at index 0. */
  lemma FirstSelectionSetsTemplate(s: Session, results: seq<Case>, id: string, now: nat)
    requires s.tempSelectedCases == [] && FindCase(results, id).Some?
    ensures var r := SelectionToggled(s, results, id, now);
            var template := DeriveTemplate(results[FindCase(results, id).value], now);
            && r.tempSelectedCases == [results[FindCase(results, id).value]]
            && r.caseTemplate == Some(template)
            && r.savedCaseTemplate == Some(template)
            && r.savedTemplateIndex == Some(0)
  {
  }

  /** `saveHistoryCaseEdit` writes only the saved template, its index and the
      history backup: the selection and the cases being edited stay. */
  lemma HistorySaveWritesOnlyTemplate(s: Session)
    ensures var r := HistoryEditSaved(s);
            && r.(savedCaseTemplate := s.savedCaseTemplate, savedTemplateIndex := s.savedTemplateIndex,
                  historyCasesBackup := s.historyCasesBackup) == s
            && r.tempSelectedCases == s.tempSelectedCases
            && (s.caseTemplate.Some? ==> r.savedCaseTemplate == s.caseTemplate && r.savedTemplateIndex == Some(s.templateCaseIndex))
            && r.historyCasesBackup.None?
  {
  }

  /** After saving, reopening the history editor over the same selection
      resumes the saved template at its index. */
  lemma SavedTemplateResumes(s: Session, now: nat)
    requires s.caseTemplate.Some? && s.templateCaseIndex < |s.tempSelectedCases|
    ensures var r := HistoryEditOpened(HistoryEditClosed(HistoryEditSaved(s)), now);
            && r.caseTemplate == s.caseTemplate
            && r.templateCaseIndex == s.templateCaseIndex
            && r.currentEditCaseIndex == s.templateCaseIndex
            && r.isViewingTemplate
  {
  }

  /** `saveCaseName` saves the renamed template at once, so the new name
      survives closing the dialog without saving. */
  lemma RenameSurvivesClose(s: Session, input: string)
    requires s.caseTemplate.Some? && !Blank(input)
    ensures HistoryEditClosed(CaseNameSaved(s, input)).savedCaseTemplate == Some(s.caseTemplate.value.(name := Trim(input)))
  {
  }

  /** A blank name is refused and changes nothing. */
  lemma BlankNameRefused(s: Session, input: string)
    requires Blank(input)
    ensures CaseNameSaved(s, input) == s
  {
  }

  /** Pressing a history view's expand button twice gives the session back. */
  lemma {:induction false} HistoryToggleTwice(s: Session, sec: Section, i: nat)
    requires s.currentEditCaseIndex < |s.historyCasesForEdit|
    requires i < |SectionOf(s.historyCasesForEdit[s.currentEditCaseIndex], sec)|
    ensures HistoryStepToggled(HistoryStepToggled(s, sec, i), sec, i) == s
  {
    var k := s.currentEditCaseIndex;
    var once := HistoryStepToggled(s, sec, i);
    ToggleTwice(s.historyCasesForEdit[k], sec, i);
    assert HistoryStepToggled(once, sec, i).historyCasesForEdit == s.historyCasesForEdit;
  }

  /** Template edits never touch the cases being edited, the selection or the
      saved template. */
  lemma {:induction false} TemplateEditsStayInSlot(s: Session, e: Edit)
    requires s.caseTemplate.Some? && ValidEdit(s.caseTemplate.value, e)
    ensures var r := TemplateEdited(s, e);
            && r.historyCasesForEdit == s.historyCasesForEdit
            && r.tempSelectedCases == s.tempSelectedCases
            && r.savedCaseTemplate == s.savedCaseTemplate
            && r.testCases == s.testCases
  {
    var r := TemplateEdited(s, e);
    assert r.(caseTemplate := s.caseTemplate) == s;
  }

  // ---------------------------------------------------------------- the handlers

  class Workbench {
    var testCases: seq<Case>
    var currentCaseIndex: nat
    var testCasesBackup: Option<seq<Case>>
    var tempSelectedCases: seq<Case>
    var historyCasesForEdit: seq<Case>
    var historyCasesBackup: Option<seq<Case>>
    var isEditingHistoryCase: bool
    var caseTemplate: Option<Case>
    var savedCaseTemplate: Option<Case>
    var savedTemplateIndex: Option<nat>
    var templateCaseIndex: nat
    var currentEditCaseIndex: nat
    var isViewingTemplate: bool

    function State(): Session
      reads this
    {
      Session(testCases, currentCaseIndex, testCasesBackup, tempSelectedCases, historyCasesForEdit,
              historyCasesBackup, isEditingHistoryCase, caseTemplate, savedCaseTemplate, savedTemplateIndex,
              templateCaseIndex, currentEditCaseIndex, isViewingTemplate)
    }

    constructor ()
      ensures State() == InitialSession()
    {
      testCases, currentCaseIndex, testCasesBackup := [], 0, None;
      tempSelectedCases, historyCasesForEdit, historyCasesBackup := [], [], None;
      isEditingHistoryCase, caseTemplate, savedCaseTemplate, savedTemplateIndex := false, None, None, None;
      templateCaseIndex, currentEditCaseIndex, isViewingTemplate := 0, 0, false;
    }

    method OpenModal()
      modifies this
      ensures State() == ModalOpened(old(State()))
    {
      testCasesBackup := Some(testCases);
    }

    method CancelAndCloseModal()
      modifies this
      ensures State() == ModalCancelled(old(State()))
    {
      if testCasesBackup.Some? {
        testCases := testCasesBackup.value;
        testCasesBackup := None;
      }
    }

    method SaveAndCloseModal()
      modifies this
      ensures State() == ModalSaved(old(State()))
    {
      testCasesBackup := None;
    }

    method SelectCase(index: nat)
      modifies this
      ensures State() == CaseSelected(old(State()), index)
    {
      currentCaseIndex := index;
    }

    /** The drop, copy, delete, expand and step-save handlers of the main
        editor. */
    method EditCurrentCase(e: Edit)
      requires HasCurrentCase(State()) && ValidEdit(CurrentCase(State()), e)
      modifies this
      ensures State() == MainEdited(old(State()), e)
    {
      testCases := testCases[currentCaseIndex := EditCase(testCases[currentCaseIndex], e, false)];
    }

    /** The drop, copy, delete, expand and save handlers of the template
        editor. */
    method EditTemplate(e: Edit)
      requires caseTemplate.Some? && ValidEdit(caseTemplate.value, e)
      modifies this
      ensures State() == TemplateEdited(old(State()), e)
    {
      caseTemplate := Some(EditCase(caseTemplate.value, e, true));
    }

    method OpenEditDialog(forHistory: bool)
      modifies this
      ensures State() == EditDialogOpened(old(State()), forHistory)
    {
      isEditingHistoryCase := forHistory;
    }

    /** `saveComponent`. */
    method SaveComponent(e: Edit)
      requires e.StoreComponent?
      requires var c := TargetCase(State(), ComponentTarget(State())); c.Some? && ValidEdit(c.value, e)
      modifies this
      ensures State() == ComponentSaved(old(State()), e)
    {
      if isEditingHistoryCase && isViewingTemplate && caseTemplate.Some? {
        caseTemplate := Some(EditCase(caseTemplate.value, e, false));
      } else if isEditingHistoryCase {
        historyCasesForEdit := historyCasesForEdit[currentEditCaseIndex :=
                                 EditCase(historyCasesForEdit[currentEditCaseIndex], e, false)];
      } else {
        testCases := testCases[currentCaseIndex := EditCase(testCases[currentCaseIndex], e, false)];
      }
    }

    /** `toggleSelect`. */
    method ToggleSelect(results: seq<Case>, id: string, now: nat)
      modifies this
      ensures State() == SelectionToggled(old(State()), results, id, now)
    {
      var found := FindCase(results, id);
      if found.None? {
        return;
      }
      var tc := results[found.value];
      var existingIndex := FindCase(tempSelectedCases, id);
      if existingIndex.Some? {
        tempSelectedCases := RemoveAt(tempSelectedCases, existingIndex.value);
      } else {
        tempSelectedCases := tempSelectedCases + [tc];
        if |tempSelectedCases| == 1 {
          caseTemplate := Some(DeriveTemplate(tc, now));
          savedCaseTemplate := caseTemplate;
          savedTemplateIndex := Some(0);
        }
      }
    }

    /** `openHistoryCaseEditModal`. */
    method OpenHistoryCaseEditModal(now: nat)
      modifies this
      ensures State() == HistoryEditOpened(old(State()), now)
    {
      if |tempSelectedCases| == 0 {
        return;
      }
      historyCasesForEdit := tempSelectedCases;
      historyCasesBackup := Some(historyCasesForEdit);
      if savedCaseTemplate.Some? && savedTemplateIndex.Some? && savedTemplateIndex.value < |historyCasesForEdit| {
        templateCaseIndex := savedTemplateIndex.value;
        caseTemplate := savedCaseTemplate;
      } else {
        templateCaseIndex := 0;
        caseTemplate := Some(DeriveTemplate(historyCasesForEdit[0], now));
      }
      currentEditCaseIndex := templateCaseIndex;
      isViewingTemplate := true;
    }

    /** The expand button of the read-only history view. */
    method ToggleHistoryStep(sec: Section, i: nat)
      requires currentEditCaseIndex < |historyCasesForEdit|
      requires i < |SectionOf(historyCasesForEdit[currentEditCaseIndex], sec)|
      modifies this
      ensures State() == HistoryStepToggled(old(State()), sec, i)
    {
      historyCasesForEdit := historyCasesForEdit[currentEditCaseIndex :=
                               ToggleStep(historyCasesForEdit[currentEditCaseIndex], sec, i)];
    }

    /** `closeHistoryCaseEditModal`. */
    method CloseHistoryCaseEditModal()
      modifies this
      ensures State() == HistoryEditClosed(old(State()))
    {
      caseTemplate := None;
    }

    /** `saveHistoryCaseEdit`. */
    method SaveHistoryCaseEdit()
      modifies this
      ensures State() == HistoryEditSaved(old(State()))
    {
      if caseTemplate.Some? {
        savedCaseTemplate := caseTemplate;
        savedTemplateIndex := Some(templateCaseIndex);
      }
      historyCasesBackup := None;
    }

    /** `handleSetAsTemplate`. */
    method HandleSetAsTemplate(checked: bool, now: nat)
      modifies this
      ensures State() == TemplateSet(old(State()), checked, now)
    {
      if checked {
        templateCaseIndex := currentEditCaseIndex;
        if currentEditCaseIndex < |historyCasesForEdit| {
          caseTemplate := Some(DeriveTemplate(historyCasesForEdit[currentEditCaseIndex], now));
        }
      }
    }

    /** `saveCaseName`. */
    method SaveCaseName(input: string)
      modifies this
      ensures State() == CaseNameSaved(old(State()), input)
    {
      var newName := Trim(input);
      if newName == [] {
        return;
      }
      if caseTemplate.Some? {
        caseTemplate := Some(caseTemplate.value.(name := newName));
        savedCaseTemplate := caseTemplate;
      }
    }

    method SelectEditCase(index: nat)
      modifies this
      ensures State() == EditCaseSelected(old(State()), index)
    {
      currentEditCaseIndex := index;
      isViewingTemplate := false;
    }

    method ViewTemplate()
      modifies this
      ensures State() == TemplateViewed(old(State()))
    {
      isViewingTemplate := true;
    }

    /** `collectAllVariables` over the case the globals select, stored in the
        registry when the scan succeeds. */
    method RefreshVariables(registry: VariableRegistry)
      modifies registry
      ensures AllVariables(CaseToScan(State())).Some? ==> registry.variables == AllVariables(CaseToScan(State())).value
      ensures AllVariables(CaseToScan(State())).None? ==> registry.variables == old(registry.variables)
    {
      registry.Rescan(CaseToScan(State()));
    }
  }
}

# A verified model of the test-case editor's data logic

The front end of the AI case generator (`script.js`) edits test cases. A case
has three sections (preconditions, steps, expected results). Each section holds
steps, and each step holds components whose parameters are JSON documents.
This project models the data logic behind the editor's handlers and proves
what each of them promises:

- **Path-addressed parameter trees** (`PathTree`, `SaveAsEdit`): `getNestedProperty`,
  `setNestedProperty`, `setNestedValue` and the `saveAs` edit flow
  `updateJsonTreeSaveAs`.
- **The variable registry** (`Registry`): `collectSaveAsVariables`,
  `collectAllVariables` with its first-wins dedup, `parseVariables`, the
  variable-list serialiser of `collectParamFormData`, and the incremental
  `syncSaveAsVariable`.
- **`${...}` autocompletion** (`Autocomplete`): finding the query before the
  cursor, filtering the registry, and splicing the chosen name in.
- **Case editing** (`CaseModel`): drag-and-drop reordering in the main and the
  template editor, duplicate, delete, and the step and component dialogs.
- **The edit session and the template slot** (`Workbench`): the main dialog's
  backup and restore, the search selection, and the history-case editor with
  its working and saved template. The globals are fields of the class
  `Workbench.Workbench`, and each handler is one of its methods. The
  `Session` snapshot and a function per handler state what each method does.
- **Serialisers** (`XmlExport`, `Html`): `generateXmlContent`, which builds
  its output with `xml +=` inside nested loops, and `escapeHtml`.

Modelling decisions:

- **JSON values** are a `Json` datatype: null, booleans, integer numbers,
  strings, and objects as a sequence of key/value pairs in insertion order.
  A node is a *leaf* when it is an object with a truthy `type`, and a
  *branch* when it is an object without one.
- **Exceptions** (a member read on `null` or `undefined`, `.trim()` or
  `.split()` on a non-string) are `None` results. A throw leaves the state the
  handler was about to write as it was. Most callers catch it; the rescan in
  `openParamConfig` (script.js:866) does not, so there the throw also ends
  the handler.
- **Setters in place**: the setters mutate a freshly parsed document that
  shares no objects. Their loops are imperative methods that carry the trail
  of visited objects, and they are proved equal to a recursive function that
  rebuilds the path.
- **Outside inputs are parameters**: `Date.now()` (as `now`), `JSON.parse` of
  user text (as an `Option<Json>`), `JSON.stringify` (as a function
  `Json -> string`) and the confirm dialog's answer (as `confirmed`).
- **Which case is scanned**: `collectAllVariables` takes the case as a
  parameter. `Workbench.CaseToScan` states how the globals pick it.

## Model

| member | source | states |
|---|---|---|
| PathTree.GetNestedProperty | script.js:1422-1432 | the result is the `property` member of the node the path names when that node is an object, and undefined otherwise; giving up on a falsy step loses nothing |
| PathTree.SetNestedValue | script.js:1551-1566 | the pointer walk leaves exactly the document `WithValue` describes, and fails when a step meets a non-object |
| PathTree.WithValueAtPath | script.js:1555-1565 | when each step reaches an object (missing or falsy members become `{}`), the write succeeds; the node at the path becomes the old typed leaf with only `value` replaced, or else the bare string, even where a branch stood |
| PathTree.WithValueSiblings | script.js:1551-1566 | every node off the path is unchanged |
| PathTree.WithValueKeyOrder | script.js:1555-1564 | on an object root the top-level keys keep their order, and the first path key is appended when it is new |
| PathTree.WithValueWellFormed | script.js:1551-1566 | a document with unique keys in every object keeps them unique |
| PathTree.SetNestedProperty | script.js:1456-1473 | the pointer walk leaves exactly the document `WithProperty` describes, and fails when a step meets a non-object |
| PathTree.PropertyRoundTrip | script.js:1422-1473 | when the node at the path is an object, the write succeeds; that node gets `property` set (or deleted for `undefined`), and `getNestedProperty` then reads back exactly what was stored |
| PathTree.PropertyNoWrite | script.js:1465-1472 | when the node at the path is missing or not an object, it is unchanged afterwards, because `type` is never checked and only objects are written |
| PathTree.PropertySiblings | script.js:1456-1473 | every node off the path is unchanged |
| SaveAsEdit.FieldKey | script.js:1406 | the field key is the last path segment and holds no `.` |
| SaveAsEdit.SaveAsValue | script.js:1412 | an empty mark becomes `undefined` (delete), and any other mark is stored as typed |
| SaveAsEdit.JsonTreeField.UpdateSaveAs | script.js:1400-1420 | reads the old mark, writes the new one and syncs the registry; when the write throws, both the document and the registry stay as they were |
| SaveAsEdit.SaveAsEditEffect | script.js:1400-1454 | editing the mark of an object node reads back the new mark (none for an empty one) and leaves the nodes off the path untouched; a non-blank new name is in the registry, and a different old name is gone from it |
| Registry.ParsePair | script.js:1130-1131 | the name and the value of a pair are trimmed |
| Registry.NonBlank | script.js:1128 | only non-blank pieces stay, each one taken from the input |
| Registry.ParseVariables | script.js:1125-1133 | every parsed name and value is trimmed, and an empty string parses to no variables |
| Registry.RowName | script.js:1789-1796 | the written name is empty exactly when the typed name is blank; otherwise it is trimmed and starts with `My_` |
| Registry.RowNameIdempotent | script.js:1793-1796 | a name that already has the prefix never gets a second one |
| Registry.PrefixedName | script.js:1789-1796 | the method's reassignments compute `RowName` |
| Registry.EmittedRow | script.js:1798-1799 | a row gives at most one pair, and that pair has a `My_` name and a value, both trimmed and non-empty |
| Registry.EmittedVariables | script.js:1784-1805 | the form writes at most one pair per row, and every pair is well formed as above |
| Registry.SerializeRow | script.js:1785-1803 | one row pushes its pair when it is kept, and its description only when that is non-blank too |
| Registry.SerializeVariableList | script.js:1780-1808 | the loop and the two `join(';')` calls produce `vars` and `varDescriptions` for the kept rows, in row order |
| Registry.PairTextParses | script.js:1130 | a written `NAME=VALUE` text without `;` or `=` in its halves parses back to its pair (also line 1799) |
| Registry.ParseJoinedPairs | script.js:1125-1133 | a non-empty list of written pairs, once joined, parses back to itself (also line 1806) |
| Registry.ParseSerializedVars | script.js:1125-1133 | `parseVariables` of the written `vars` gives exactly the emitted name/value pairs, provided no name or value contains `;` or `=` (also lines 1794-1806) |
| Registry.NamedEntry | script.js:795-801 | a parsed variable with an empty name is skipped, and any other gives one entry under its own name |
| Registry.NamedVariables | script.js:795-802 | the registry entries of a parsed list all have non-empty names |
| Registry.VariableListVariables | script.js:785-802 | every variable a `variable` component defines has a non-empty name |
| Registry.BuildDescriptionMap | script.js:787-794 | the `forEach` over the description pieces builds `DescriptionMap`, where a later piece overrides an earlier one |
| Registry.PushNamedVariables | script.js:795-802 | the `forEach` appends exactly the named entries, after what was collected before |
| Registry.CollectVariableList | script.js:785-803 | the variable-list branch appends the component's variables, or throws when `vars` or `varDescriptions` is a truthy non-string |
| Registry.LeafSaveAs | script.js:745-755 | a typed leaf whose truthy `saveAs` is a string gives at most one variable, with a non-empty name; `.trim()` throws on any other truthy mark |
| Registry.CollectEntry | script.js:741-760 | one key of the walk pushes a saveAs leaf, enters a type-less object, and skips everything else |
| Registry.CollectSaveAsVariables | script.js:738-762 | the recursive `forEach` appends exactly `SaveAsVariables`, in key order, or stops at the first exception |
| Registry.SaveAsNamesNonEmpty | script.js:745-755 | every saveAs variable found has a non-empty name |
| Registry.SaveAsVariablesExact | script.js:738-762 | on a tree with unique keys, a variable is found exactly when it belongs to a typed leaf with a non-blank string `saveAs`, reached through type-less objects only |
| Registry.MembersSaveAsExact | script.js:741-761 | the first `n` keys report exactly the saveAs sites below them |
| Registry.EntrySaveAsExact | script.js:742-759 | one key reports exactly the saveAs sites below it |
| Registry.CollectComponent | script.js:785-808 | one component appends its variable list (in preconditions and steps), then its response saveAs variables |
| Registry.CollectComponents | script.js:784-809 | the components of a step contribute in order |
| Registry.CollectSection | script.js:783-810 | the steps of a section contribute in order |
| Registry.ComponentNamesNonEmpty | script.js:785-808 | no definition a component contributes has an empty name |
| Registry.RawNamesNonEmpty | script.js:782-849 | no definition scanned from a case has an empty name |
| Registry.ExpectedResultListsIgnored | script.js:842-849 | expected results never contribute variable-list definitions, whatever their parameters |
| Registry.Dedup | script.js:851-859 | the kept entries have pairwise distinct names, the same set of names as the input, and each one comes from the input |
| Registry.DedupFirstOccurrence | script.js:851-859 | the entry kept for a name is its first occurrence |
| Registry.DedupOrder | script.js:851-859 | kept entries come in the order of their first occurrences |
| Registry.DedupByName | script.js:851-859 | the loop with a set of seen names computes `Dedup` |
| Registry.AllVariables | script.js:765-862 | the collected variables have pairwise distinct, non-empty names |
| Registry.CollectAllVariables | script.js:765-862 | the method scans preconditions, then steps, then expected results, and dedups the result, which is `AllVariables` |
| Registry.StaleName | script.js:1436-1437 | only a truthy string old mark names entries to remove |
| Registry.RemoveNamed | script.js:1437 | the filter removes every entry with the name and keeps every other one; distinct names stay distinct |
| Registry.RemoveNamedAppend | script.js:1437 | the filter works entry by entry, so the entries it keeps stay in their relative order |
| Registry.HasName | script.js:1446 | `find` by name succeeds exactly when some entry has that name |
| Registry.WithoutStale | script.js:1436-1438 | no entry named by the old mark stays, all others stay, and nothing is added |
| Registry.AddMissing | script.js:1441-1453 | a non-blank new name is present afterwards; the list is unchanged or has exactly one entry appended; distinct names stay distinct |
| Registry.SyncedVariables | script.js:1434-1454 | the old name is gone unless it is the new one; a non-blank new name is present; every other entry is kept; nothing else is added; distinct names stay distinct |
| Registry.VariableRegistry.SyncSaveAsVariable | script.js:1434-1454 | the registry becomes `SyncedVariables` of its old contents |
| Registry.VariableRegistry.Rescan | script.js:866 | a successful scan replaces the registry, and one that throws leaves it as it was |
| Autocomplete.FindQuery | script.js:1668-1697 | a query found starts at a `${` at least two places before the cursor, and its text is what lies between them |
| Autocomplete.ClosingBeforeCursor | script.js:1682-1689 | the first `}` after the `${` comes before the cursor exactly when a `}` lies between them |
| Autocomplete.FindQueryExact | script.js:1673-1692 | with a last `${` before the cursor: there are no suggestions when a `}` lies between it and the cursor, and otherwise the query is the text in between |
| Autocomplete.FindQueryNoOpening | script.js:1673-1679 | without a `${` before the cursor nothing is offered |
| Autocomplete.Suggestions | script.js:1630-1632 | the suggestions are exactly the registry entries whose lower-cased name contains the lower-cased query, listed in registry order (a subsequence of the registry) |
| Autocomplete.SuggestionsEmptyQuery | script.js:1630-1632 | right after `${` every variable is offered, in registry order |
| Autocomplete.MatchesIgnoresCase | script.js:1631 | the match ignores (ASCII) case in the query and in the name |
| Autocomplete.Clamp | script.js:1651-1652 | a `substring` index is clamped to the string, and one inside it is kept |
| Autocomplete.AcceptSplices | script.js:1648-1661 | accepting a suggestion for the query at the cursor gives `text[..p] + "${" + name + "}" + text[cursor..]` with the cursor at `p + |name| + 3` |
| Autocomplete.AcceptCloses | script.js:1648-1697 | after accepting, the reference is closed: no suggestions are offered at the new cursor |
| CaseModel.RemoveAt | script.js:2525 | `splice(i, 1)` shifts the later items one place left |
| CaseModel.InsertAt | script.js:2686 | `splice(i, 0, x)` puts `x` at `i` and shifts the later items one place right |
| CaseModel.MoveProperties | script.js:2685-2686 | remove-then-insert keeps the length, puts the item at the target, keeps the others in order, and is a permutation (also lines 2678-2679) |
| CaseModel.MainDrop | script.js:2659-2686 | a drop across item kinds, sections or (for components) steps leaves the case unchanged |
| CaseModel.TemplateDrop | script.js:3811-3829 | the same holds in the template editor |
| CaseModel.MainDropStep | script.js:2681-2686 | the section is a permutation, the step lands at the target index, the other steps keep their order, and the other sections are untouched |
| CaseModel.MainDropComponent | script.js:2667-2679 | the same holds for a component within one step, and nothing else in the case changes |
| CaseModel.TemplateDropStep | script.js:3811-3818 | the step lands at target−1 when moving forward and at the target when moving backward; the section is a permutation, the others keep their order, and the other sections are untouched |
| CaseModel.TemplateDropComponent | script.js:3821-3828 | the same holds for a component within one step: its components are a permutation with the component at the landing index and the others in order; the step's other fields, the section's length and other steps, and the other sections are untouched |
| CaseModel.TemplateDropOntoNext | script.js:3815-3816 | dropping onto the next item does nothing in the template editor, while the main editor swaps the two (also lines 2685-2686) |
| CaseModel.DuplicateAt | script.js:2512 | the copy sits right after its original, and taking it out gives the list back |
| CaseModel.DuplicateStep | script.js:2503-2515 | the section becomes the duplicate-inserted list, and the other sections are untouched (also lines 3846-3856) |
| CaseModel.DuplicateComponent | script.js:2552-2565 | the step's components become the duplicate-inserted list; the step's other fields, the other steps and the other sections are untouched (also lines 3888-3899) |
| CaseModel.DeleteStep | script.js:2525 | the section loses exactly the step at the index, and the other sections are untouched (also line 3873) |
| CaseModel.DeleteComponent | script.js:2576 | the step loses exactly the component at the index; the step's other fields, the other steps and the other sections are untouched (also line 3917) |
| CaseModel.DuplicateThenDelete | script.js:2512 | deleting a fresh copy gives the case back (also line 2525) |
| CaseModel.PresetComponentIdsDistinct | script.js:2745 | the ids `c<now>_<index>` of copied preset components differ for different indices |
| CaseModel.PresetComponents | script.js:2743-2750 | each preset component is copied with type, name and parameters and a fresh indexed id |
| CaseModel.NewStep | script.js:2752-2758 | a new step is expanded, carries the name and description, and has one component per preset component, with distinct ids |
| CaseModel.SaveStep | script.js:2731-2760 | a blank name is rejected; with an index only that step gets the trimmed name and description; without one a new step is appended; other sections are untouched (also lines 4062-4091) |
| CaseModel.FindPreset | script.js:4333 | `find` gives the first preset with the name, or none when none has it |
| CaseModel.ResolveComponentType | script.js:4332-4338 | the type is that of the first preset with the name, else that of the selected preset, else `"input"` |
| CaseModel.CheckComponentForm | script.js:4320-4346 | the save goes ahead exactly when the description and the component name are non-blank and the parameters parse; it then stores the resolved type, the trimmed description and the parsed parameters |
| CaseModel.UpsertComponent | script.js:4388-4403 | editing replaces type, name and parameters and keeps the id and the other components; adding appends a component with id `c<now>` |
| CaseModel.SaveComponent | script.js:4203-4252 | a rejected form changes nothing, and an accepted one upserts into the step's components |
| CaseModel.DeriveTemplate | script.js:3084-3086 | a template has id `TEMPLATE_<now>`, the case's name with ` (模板)` appended, and the case's sections (also lines 3432-3434) |
| CaseModel.FindCase | script.js:3070 | `find`/`findIndex` by id gives the first case with the id, or none (also line 3073) |
| Workbench.ToggleStep | script.js:3836-3843 | only the `expanded` flag of the one step flips; the main editor's and the history view's buttons do the same (also lines 2483-2491, 3715-3722) |
| Workbench.ToggleTwice | script.js:3840 | expanding and collapsing again gives the case back |
| Workbench.EditCase | script.js:2503-2580 | no handler edit changes the case's id or name (also lines 3796-3921) |
| Workbench.CaseToScan | script.js:767-776 | the scanned case is the current main case; without one, the template while it is viewed, and otherwise the viewed history case |
| Workbench.MainEdited | script.js:2503-2580 | an edit in the main editor changes the current case and nothing else (also lines 2665-2686, 2738-2759) |
| Workbench.TemplateEdited | script.js:3796-3921 | an edit in the template editor changes only the working template, and keeps its id (also lines 4069-4090, 4233-4251) |
| Workbench.ComponentTarget | script.js:4348-4387 | `saveComponent` writes to the template exactly when a history dialog edits the viewed template, and to the main case exactly when no history dialog is open |
| Workbench.ComponentSaved | script.js:4348-4404 | the saved component lands in the dispatched case, and no other global changes |
| Workbench.SelectionToggled | script.js:3067-3092 | toggling changes only the selection and the template slot |
| Workbench.HistoryEditOpened | script.js:3416-3444 | with nothing selected nothing happens; otherwise the selection is copied and backed up, the saved template is resumed at its index when that index fits the selection, else a template is derived from the first case at index 0, the template is shown, and no other global changes |
| Workbench.HistoryStepToggled | script.js:3715-3722 | the read-only history view's expand button flips the flag in the viewed history case only, and no other global changes |
| Workbench.HistoryToggleTwice | script.js:3715-3722 | pressing that button twice gives the session back |
| Workbench.ActionKeepsBackup | script.js:2483-2580 | no action inside the main dialog, expand toggles included, touches the backup (also lines 2351-2356, 4319-4404) |
| Workbench.CancelUndoesEdits | script.js:2305-2320 | after any sequence of edits, expand toggles included, cancelling restores the cases as they were at `openModal` and clears the backup |
| Workbench.SaveKeepsEdits | script.js:2326-2331 | saving keeps the edits and only clears the backup |
| Workbench.ReopenReplacesBackup | script.js:2305-2311 | `openModal` has no guard: a second opening replaces the backup, and a later cancel returns the cases as they were at that second opening |
| Workbench.ToggleSelectTwice | script.js:3067-3092 | toggling an unselected case twice gives the selection back |
| Workbench.FirstSelectionSetsTemplate | script.js:3082-3089 | selecting the first case derives a template and saves it at once, at index 0 |
| Workbench.HistorySaveWritesOnlyTemplate | script.js:3451-3468 | saving writes only the saved template, its index and the history backup, and `tempSelectedCases` is untouched |
| Workbench.SavedTemplateResumes | script.js:3416-3456 | after save, close and reopen over the same selection, the saved template is resumed at its index and shown |
| Workbench.RenameSurvivesClose | script.js:3948-3959 | a rename is saved at once, so it survives closing without saving (also lines 3446-3449) |
| Workbench.BlankNameRefused | script.js:3949-3953 | a blank name changes nothing |
| Workbench.TemplateEditsStayInSlot | script.js:3796-3921 | template edits never touch the cases being edited, the selection, the saved template or the main cases |
| Workbench.Workbench.constructor | script.js:417-446 | the globals start at their declared values (also lines 3327-3329) |
| Workbench.Workbench.OpenModal | script.js:2305-2311 | the backup becomes the current cases |
| Workbench.Workbench.CancelAndCloseModal | script.js:2313-2320 | a held backup is restored and dropped |
| Workbench.Workbench.SaveAndCloseModal | script.js:2326-2331 | the backup is dropped |
| Workbench.Workbench.SelectCase | script.js:2351-2356 | the clicked case becomes current |
| Workbench.Workbench.EditCurrentCase | script.js:2483-2580 | the state becomes `MainEdited` of the old state (also lines 2647-2690, 2731-2764) |
| Workbench.Workbench.EditTemplate | script.js:3796-3921 | the state becomes `TemplateEdited` of the old state (also lines 4062-4096, 4203-4257) |
| Workbench.Workbench.OpenEditDialog | script.js:4414-4419 | opening a dialog records which editor it serves (also lines 2697, 3987, 4104) |
| Workbench.Workbench.SaveComponent | script.js:4319-4412 | the state becomes `ComponentSaved` of the old state |
| Workbench.Workbench.ToggleSelect | script.js:3067-3092 | the state becomes `SelectionToggled` of the old state |
| Workbench.Workbench.OpenHistoryCaseEditModal | script.js:3416-3444 | the state becomes `HistoryEditOpened` of the old state |
| Workbench.Workbench.ToggleHistoryStep | script.js:3715-3722 | the state becomes `HistoryStepToggled` of the old state |
| Workbench.Workbench.CloseHistoryCaseEditModal | script.js:3446-3449 | the working template is dropped |
| Workbench.Workbench.SaveHistoryCaseEdit | script.js:3451-3468 | the state becomes `HistoryEditSaved` of the old state |
| Workbench.Workbench.HandleSetAsTemplate | script.js:3924-3934 | a checked box makes the viewed history case the template |
| Workbench.Workbench.SaveCaseName | script.js:3948-3964 | the state becomes `CaseNameSaved` of the old state |
| Workbench.Workbench.SelectEditCase | script.js:3486-3492 | the clicked history case is viewed instead of the template |
| Workbench.Workbench.ViewTemplate | script.js:3515-3519 | the template is viewed |
| Workbench.Workbench.RefreshVariables | script.js:765-776 | the registry is rescanned over the case the globals select (also line 866) |
| Html.ReplaceChar | script.js:1266 | a global single-character replace leaves no occurrence of the character when the replacement has none |
| Html.EscapeHtml | script.js:1264-1267 | the escaped text holds no `"` |
| Html.EscapeValue | script.js:1265 | a non-string comes back unchanged, and a string stays a string |
| Html.EscapeHtmlSplit | script.js:1266 | escaping distributes over concatenation |
| Html.EscapeHtmlPerChar | script.js:1266 | the four chained passes equal escaping each character on its own, because no pass touches what an earlier one wrote |
| Html.EscapeHtmlSafe | script.js:1264-1267 | the escaped text holds no `<`, `>` or `"` |
| Html.UnescapeEscapeHtml | script.js:1264-1267 | decoding the four entities gives the original text back |
| Html.EscapeHtmlInjective | script.js:1264-1267 | different texts never escape alike |
| XmlExport.AppendComponents | script.js:2264-2268 | the inner loop appends each component's three lines in order |
| XmlExport.AppendSection | script.js:2261-2271 | a section appends its open tag, each item with its 1-based index and components, and its close tag |
| XmlExport.AppendCase | script.js:2259-2297 | one case appends its open line, its three sections in order and its close line |
| XmlExport.GenerateXmlContent | script.js:2255-2302 | the `xml +=` loops build exactly `XmlDocument`: the header, each case in order, and the footer |
| XmlExport.CasesXmlAppend | script.js:2258-2298 | the document body of two case lists is the concatenation of their bodies |
| XmlExport.CaseInDocument | script.js:2255-2302 | the fragment of case `k` sits between the fragments of the cases before and after it |
| XmlExport.ItemNumbering | script.js:2262-2263 | the item added after `n` others carries `index="n+1"` |
| XmlExport.EmptyDocument | script.js:2256 | no cases give just the header and the footer (also line 2300) |
| XmlExport.NamesNotEscaped | script.js:2259 | a case's id and name are put into its open line as they are, without escaping |

## Left out

- DOM rendering and event wiring (`generateParamField`, `generateJsonTree`,
  the `render*`, `bind*`, `show*` and `hide*` functions) are left out: they
  are HTML templating and listener plumbing. Only the data each handler
  changes is modelled.
- `updateParamSummary` and the dialogs' open and close plumbing are not
  modelled. Neither is reading and writing the hidden inputs as strings:
  `UpdateSaveAs` starts from the parsed document and ends with the new one,
  and the `JSON.parse`/`JSON.stringify` round trip around it is left out.
- `updateJsonTreeValidation` (script.js:1387-1398) is not modelled on its
  own. It is `setNestedProperty` on `validation`, which
  `PathTree.SetNestedProperty` covers.
- Network access, the chat and simulated generation, clipboard, file upload,
  the Blob download, notifications and the confirm dialog are left out as I/O.
  The dialog's answer is a parameter of the delete edits.
- `backend/app.py` is not part of this model. It is a mock server whose
  name filter the front end treats as an external collaborator.
- JSON arrays are not modelled. Numbers are integers. Keys that the
  prototype provides (`constructor`, `__proto__`) and the engine's ordering of
  integer-like keys before the others are not modelled: objects keep
  insertion order.
- `toLowerCase` is an ASCII fold (`Text.ToLower`), so
  `Autocomplete.MatchesIgnoresCase` holds for ASCII case only.
- `JSON.parse`, `JSON.stringify` and `Date.now()` are parameters. Deep copies
  through `JSON.parse(JSON.stringify(...))` are the identity on these values.
- The optional parameter-form merge rules are not modelled: the schema
  lookup `|| []` (script.js:984), the default parameters used when the parsed
  ones are empty (script.js:891-893), the json-tree initial value
  (script.js:1086) and the template-select preference (script.js:1768-1777).
- Drop, copy and delete handlers get indices taken from the rendered list,
  so the model requires them to be in range. A stale index after concurrent
  re-rendering is not modelled.
- Registry.SaveAsVariablesExact: requires every object in the tree to have
  unique keys, which parsed JSON always has.
- Registry.ParseSerializedVars: holds only when no emitted name or value
  contains `;` or `=`. Otherwise `parseVariables` splits them differently.
- CaseModel.TemplateDrop: the dragged item is a parameter. The template
  editor keeps it in per-section closures (script.js:3749-3753), and its
  `dragend` (script.js:3767-3772) never clears them, unlike the main editor's
  `handleDragEnd` (script.js:2629-2639). Suppose a drag in section B ends
  outside any item, and a later drag from section A drops on an item of B.
  Then B's handler moves B's stale item. `TemplateDrop` gives that move when
  passed the stale item, but the model does not track which item each
  section remembers.
- Autocomplete.FindQuery: the cursor and `substring` positions
  (script.js:1651-1652, 1670-1690) are UTF-16 code units in JavaScript,
  while Dafny characters are Unicode scalar values. `FindQuery` and
  `Accept` therefore differ from the code on text with characters outside
  the Basic Multilingual Plane.
- CaseModel.NewStep: one `now` stands for separate `Date.now()` calls within
  one handler (script.js:2745 and 2753). The code may see two different
  clock values there.
- Workbench.TemplateSet: when the viewed index is past the end of the history
  list, the copy throws after the index has been set. The model keeps the new
  index and leaves the template as it was.

Behaviour the model keeps as the code has it:

- `setNestedValue` overwrites a branch at the last key with the bare string.
- The main editor's drop uses the target index with no clamping or
  adjustment.
- `openModal` does not guard against being opened twice.
- `saveCaseName` writes `savedCaseTemplate` at once, before the session is
  saved.

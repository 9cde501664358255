# FMEA analysis tree — a Dafny model

This project models the core of a browser-based FMEA (Failure Mode and
Effects Analysis) wizard. The analysis is a strict containment tree:

- structure elements (systems, components, process steps) own functions;
- functions own failure modes;
- failure modes own effects and causes;
- causes own optimisation actions.

The wizard's steps edit that tree with recursive map/filter rebuilds. Each
step is modelled as pure functions over datatypes.

- Step 2 adds, deletes and renames elements, and merges suggested element names.
- Step 3 looks elements up and edits their function lists.
- Step 4 lists all functions and edits failures, effects and causes.
- Step 5 edits a cause's scores and recomputes its Action Priority.
- Step 6 adds, deletes and edits actions, recomputing their re-rated priority.

The same steps also flatten the tree into worksheet views. These are the
loops that push into a mutable `rows` array, so they are modelled as Dafny
methods with `while` loops, each proved against a specification function:

- Step 4's function list;
- Step 5's one row per cause;
- Step 6's filtered cause list;
- Step 7's results table, with one row per cause and action, a "None" row
  and ditto cells.

The results table is exported as CSV: every cell quoted, with quotes
doubled. The export is proved to read back by section 2, rule 7 of RFC 4180.
The Action Priority rule is a simplified, piecewise version of the
AIAG-VDA one; it is proved band by band and shown to be monotone.

**Files**

- `fmea_types.dfy`: the data model.
- `action_priority.dfy`: the classifier and the two derived-field invariants (a cause's priority, an action's re-rated priority).
- `tree.dfy`: the pre-order walk, `findNode`, and the generic "rebuild at an id" that Steps 2, 3, 5 and 6 share.
- `seq_util.dfy`: `join`, `filter`, and decimal rendering.
- One file per step: `structure_step.dfy`, `function_step.dfy`, `failure_step.dfy`, `risk_step.dfy`, `optimization_step.dfy`, `results_step.dfy`.
- `csv.dfy`: the CSV encoder and decoder.

Fresh ids (`crypto.randomUUID()`) are parameters. The confirmation dialogs
are left out; only the edit that follows a confirmation is modelled. The
service calls are left out; their results are parameters (`None` when the
call fails or returns nothing usable).

## Model

| member | source | states |
|---|---|---|
| FmeaTypes.PriorityCodesDistinct | types.ts:7-11 | the three priorities carry the distinct one-letter codes L, M, H |
| ActionPriorityRule.CalculateAP | constants.ts:43-62 | total on all integer triples; LOW exactly when S <= 3; HIGH only when S >= 4 and O >= 4 |
| ActionPriorityRule.VeryHighSeverityBand | constants.ts:44-49 | for S >= 9: HIGH iff O >= 6 or (O >= 4 and D >= 7), otherwise MEDIUM; the O <= 3, D >= 5 branch gives MEDIUM |
| ActionPriorityRule.HighSeverityBand | constants.ts:50-55 | for 7 <= S <= 8: HIGH iff O >= 8 or (O >= 6 and D >= 5) or (O >= 4 and D >= 7), otherwise MEDIUM |
| ActionPriorityRule.MediumSeverityBand | constants.ts:56-60 | for 4 <= S <= 6: HIGH iff (O >= 8 and D >= 7) or (O >= 6 and D >= 9), otherwise MEDIUM |
| ActionPriorityRule.Monotone | constants.ts:43-62 | with L < M < H, raising any of S, O, D never lowers the tier |
| ActionPriorityRule.UnsetIsLow | constants.ts:61 | the unset triple (0,0,0) is LOW, the default of a new cause |
| SeqUtil.Join | components/Step7_Results.tsx:61 | `join`: no parts give "", one part gives that part, and the result is never shorter than its first part |
| SeqUtil.JoinSnoc | components/Step7_Results.tsx:61 | one more part is joined after exactly one separator, so neighbouring parts are separated by `sep` |
| SeqUtil.Filter | components/Step2_Structure.tsx:81 | `filter` keeps exactly the accepted elements and never lengthens |
| SeqUtil.FilterConcat | components/Step6_Optimization.tsx:89 | filtering distributes over concatenation, so kept elements keep their order |
| SeqUtil.FilterKeepsAll | components/Step3_Function.tsx:76 | filtering when every element is accepted changes nothing |
| SeqUtil.IntToString | components/Step7_Results.tsx:62 | decimal text of a score: non-empty, with a leading minus exactly for negatives |
| SeqUtil.NatToStringValue | components/Step7_Results.tsx:62 | the decimal digits written for a natural number denote it |
| SeqUtil.IntToStringValue | components/Step7_Results.tsx:62 | the text of an integer denotes it: its digits give the magnitude, after a minus sign for negatives |
| SeqUtil.IntToStringInjective | components/Step7_Results.tsx:62 | different scores are written differently |
| Tree.AllNodes | components/Step3_Function.tsx:26-33 | the pre-order walk visits at least the top-level elements |
| Tree.IdSetIsPreorderIds | components/Step3_Function.tsx:26-33 | the ids in the tree are exactly the ids met by the pre-order walk |
| Tree.FindNode | components/Step3_Function.tsx:26-33 | `findNode` returns null iff no element at any depth has the id; otherwise an element of the walk with that id |
| Tree.FindNodeIsFirst | components/Step3_Function.tsx:27-31 | `findNode` returns the pre-order-first element with the id |
| Tree.UniqueIdsImpliesNoNested | components/Step2_Structure.tsx:38 | with pairwise distinct ids, no element lies below another with the same id |
| Tree.RebuildAt | components/Step2_Structure.tsx:93-97 | the recursive map that edits matched elements and descends elsewhere keeps the top-level length |
| Tree.RebuildAtAbsent | components/Step3_Function.tsx:44-48 | an absent id leaves the forest equal to its input |
| Tree.RebuildAtIds | components/Step3_Function.tsx:44-48 | an edit that keeps id and children keeps the set of ids |
| Tree.RebuildAtFind | components/Step3_Function.tsx:44-48 | after the rebuild, looking the id up finds the edited first match |
| Tree.RebuildAtIdempotent | components/Step3_Function.tsx:44-48 | an idempotent edit applied twice equals once |
| Tree.RebuildAtEditsOnly | components/Step2_Structure.tsx:93-97 | without nested matches, the walk changes exactly the matched elements, by the edit, and all others keep their fields |
| Tree.RebuildAtEverywhere | components/Step5_Risk.tsx:22-55 | an edit preserving a per-element property preserves it throughout the tree |
| StructureStep.AddNodeRecursive | components/Step2_Structure.tsx:56-65 | same top-level length and ids |
| StructureStep.AddNodeRecursiveIsRebuild | components/Step2_Structure.tsx:57-64 | the childless shortcut is immaterial: it is the rebuild with "append child" |
| StructureStep.AddNodeRecursiveAbsent | components/Step2_Structure.tsx:56-65 | a missing target returns the input unchanged |
| StructureStep.AddNodeRecursiveTarget | components/Step2_Structure.tsx:58-59 | the target gets its old children in order, then the new node, and nothing below it changes |
| StructureStep.AddNodeRecursiveIds | components/Step2_Structure.tsx:56-65 | the tree gains exactly the new subtree's ids |
| StructureStep.AddNodeRecursiveFindsNew | components/Step2_Structure.tsx:56-65 | with a fresh id, the new element is found afterwards |
| StructureStep.AddNode | components/Step2_Structure.tsx:36-53 | falsy parent: exactly one "New Item" system appended at the end, existing roots kept in order; else top-level length kept |
| StructureStep.AddNodeUnderParent | components/Step2_Structure.tsx:37-50 | under a present parent: a "New Item" component with that parent id, the parent's last child, one new id |
| StructureStep.DeleteRecursive | components/Step2_Structure.tsx:77-86 | afterwards no element has the id; ids and element count never grow |
| StructureStep.DeleteRecursiveFilterThenMap | components/Step2_Structure.tsx:80-85 | the result is the filter of the level followed by the recursion into each survivor |
| StructureStep.DeleteRecursiveKeepsSurvivors | components/Step2_Structure.tsx:77-86 | removed elements are exactly the matches and their subtrees; survivors keep order, names and functions |
| StructureStep.DeleteRecursiveAbsent | components/Step2_Structure.tsx:77-86 | an absent id deletes nothing |
| StructureStep.DeleteRecursiveShrinks | components/Step2_Structure.tsx:77-86 | a present id strictly lowers the element count |
| StructureStep.UpdateNodeName | components/Step2_Structure.tsx:92-99 | matched element renamed, ids and subtrees kept, lookup sees the new name, renaming twice equals once |
| StructureStep.UpdateNodeNameAbsent | components/Step2_Structure.tsx:92-99 | an absent id changes nothing |
| StructureStep.UpdateNodeNameOnlyTarget | components/Step2_Structure.tsx:95-96 | only the matched elements change, and only their name |
| StructureStep.SuggestedChildren | components/Step2_Structure.tsx:134-141 | one component per suggestion, in order, with no content |
| StructureStep.MergeStructureSuggestions | components/Step2_Structure.tsx:103-146 | empty scope or no list: no change; empty tree: one root named by the scope with one child per suggestion; else suggestions appended to the first root, other roots unchanged |
| StructureStep.EmptyTreeMergeLeavesChildUnlinked | components/Step2_Structure.tsx:119-121 | as written, a child made under a new root has no parent id |
| StructureStep.MergeStructureSuggestionsLinked | components/Step2_Structure.tsx:112-145 | empty scope or no list: no change; empty tree: the as-written single root, but with every new child pointing at it; non-empty tree: the as-written merge; in all cases parent ids keep pointing at the enclosing element |
| FunctionStep.UpdateNodeFunctions | components/Step3_Function.tsx:43-51 | matched element gets the list; ids kept; lookup sees the new list; applying twice equals once |
| FunctionStep.UpdateNodeFunctionsAbsent | components/Step3_Function.tsx:44-48 | an absent id returns the tree unchanged |
| FunctionStep.UpdateNodeFunctionsOnlyTarget | components/Step3_Function.tsx:46-47 | without nested matches, every element keeps id, name and kind; only matched elements' function lists change |
| FunctionStep.SelectedNode | components/Step3_Function.tsx:35 | found iff a truthy id is selected and present; the result carries that id |
| FunctionStep.AppendNewFunction | components/Step3_Function.tsx:53-62 | one empty function with the element's id appended, the others kept in order |
| FunctionStep.RemoveFunction | components/Step3_Function.tsx:75-77 | exactly the functions with another id remain, taking the removed ones' failures with them |
| FunctionStep.RemoveFunctionConcat | components/Step3_Function.tsx:76 | removal keeps the survivors' relative order |
| FunctionStep.RemoveFunctionAbsent | components/Step3_Function.tsx:76 | removing an absent id changes nothing |
| FunctionStep.UpdateFunctionField | components/Step3_Function.tsx:81-84 | only the given field of the functions with the id changes |
| FunctionStep.UpdateFunctionFieldOverwrites | components/Step3_Function.tsx:83 | setting a field twice keeps the second value |
| FunctionStep.EditSelectedFunctions | components/Step3_Function.tsx:53-85 | no selection: no change; otherwise the selected element has the edited list and ids are kept |
| FailureStep.FunctionEntriesArePreorder | components/Step4_Failure.tsx:19-26 | the list is the functions of the elements in pre-order |
| FailureStep.FunctionEntriesLength | components/Step4_Failure.tsx:19-26 | the list has one entry per function of the tree |
| FailureStep.GetAllFunctions | components/Step4_Failure.tsx:19-26 | the loop builds exactly the pre-order function list |
| FailureStep.FindEntry | components/Step4_Failure.tsx:28 | `find` returns an entry with the id that no earlier entry has, and nothing iff none has it |
| FailureStep.UpdateFunctionFailures | components/Step4_Failure.tsx:30-39 | top-level length and element ids are kept |
| FailureStep.UpdateFunctionFailuresOutline | components/Step4_Failure.tsx:30-37 | every element, with or without functions, keeps its id, parent id, name, kind and pre-order position; only function lists change |
| FailureStep.UpdateFunctionFailuresEntries | components/Step4_Failure.tsx:32-36 | every function with the id, at any depth, gets the list; other entries unchanged |
| FailureStep.UpdateFunctionFailuresAbsent | components/Step4_Failure.tsx:30-39 | no function with the id: nothing changes |
| FailureStep.NewCause | components/Step4_Failure.tsx:62-73 | "New Cause", scores 0, priority LOW, no actions, linked to the failure, consistent |
| FailureStep.AddFailureMode | components/Step4_Failure.tsx:41-52 | no selected id: no change; ids kept |
| FailureStep.AddFailureModeEntries | components/Step4_Failure.tsx:43-51 | the selected function's failures followed by one empty failure of that function |
| FailureStep.ApplyFailureEdit | components/Step4_Failure.tsx:56 | the spread sets exactly the named field |
| FailureStep.EditFailureIn | components/Step4_Failure.tsx:56 | only failures with the id change, by the edit |
| FailureStep.EditSelectedFailures | components/Step4_Failure.tsx:54-58 | no selected function: no change; ids kept |
| FailureStep.EditSelectedFailuresEntries | components/Step4_Failure.tsx:54-58 | the selected function's failures are replaced by the edited list, other entries unchanged |
| FailureStep.UpdateFailure | components/Step4_Failure.tsx:54-58 | no contract of its own: the selected-failure edit with `EditFailureIn`; see EditSelectedFailures, EditSelectedFailuresEntries and EditFailureIn |
| FailureStep.AddCause | components/Step4_Failure.tsx:61-75 | no contract of its own: `updateFailure` with the causes plus `NewCause`; see FailureCardEdits and NewCause |
| FailureStep.DeleteFailure | components/Step4_Failure.tsx:196-198 | no contract of its own: the selected-failure edit with the filter; see DeleteFailureOpSpec and EditSelectedFailuresEntries |
| FailureStep.AddEffect | components/Step4_Failure.tsx:220 | no contract of its own: `updateFailure` with the effects plus ""; see FailureCardEdits |
| FailureStep.EditEffect | components/Step4_Failure.tsx:230-233 | no contract of its own: `updateFailure` with effect `eIdx` replaced; see FailureCardEdits |
| FailureStep.EditCauseDescription | components/Step4_Failure.tsx:257-260 | no contract of its own: `updateFailure` with cause `cIdx` renamed; see EditCauseDescriptionEdit |
| FailureStep.DeleteFailureOpSpec | components/Step4_Failure.tsx:196-198 | exactly the other failures remain; the list shrinks iff the id was present |
| FailureStep.FailureCardEdits | components/Step4_Failure.tsx:220-260 | add effect appends ""; editing effect eIdx changes only it and keeps length; add cause appends one LOW unrated cause |
| FailureStep.EditCauseDescriptionEdit | components/Step4_Failure.tsx:257-260 | cause `cIdx` gets the new description and keeps id, scores, priority and actions; every other cause unchanged; a rated cause stays rated |
| FailureStep.SuggestedCause | components/Step4_Failure.tsx:102-113 | the given id, linked to the failure; description is the suggested one or "Suggested Cause"; both controls copied; scores 0, priority LOW, no actions |
| FailureStep.DeepAnalysisMerge | components/Step4_Failure.tsx:93-124 | a falsy result or no selected function changes nothing |
| FailureStep.DeepAnalysisOpSpec | components/Step4_Failure.tsx:115-120 | the target failure gains the effect and exactly the suggested cause after its own; other failures unchanged |
| RiskStep.CausesRows | components/Step5_Risk.tsx:68 | one row per cause, in order, with its context |
| RiskStep.FailuresRows | components/Step5_Risk.tsx:66-67 | rows of a function's failures carry its element and function ids |
| RiskStep.FunctionsRows | components/Step5_Risk.tsx:65 | rows of an element's functions carry its id |
| RiskStep.CauseRowsNodeIds | components/Step5_Risk.tsx:63-146 | every row's element id is an id of the tree |
| RiskStep.CauseRowsLength | components/Step5_Risk.tsx:63-148 | the row count equals the number of causes in the tree |
| RiskStep.PushCauses | components/Step5_Risk.tsx:68-69 | the loop pushes what each cause emits, in order |
| RiskStep.PushFailures | components/Step5_Risk.tsx:66-67 | the loop skips failures without causes and pushes the rest, in order |
| RiskStep.PushFunctions | components/Step5_Risk.tsx:65 | the loop pushes the rows of each function, in order |
| RiskStep.WalkCauses | components/Step5_Risk.tsx:63-148 | the traversal pushes the rows of each element, then of its children, in pre-order |
| RiskStep.RenderRiskRows | components/Step5_Risk.tsx:60-150 | exactly one row per cause, in worksheet order; count equals number of causes |
| RiskStep.UpdateCauseAt | components/Step5_Risk.tsx:22-56 | top-level length and ids kept |
| RiskStep.UpdateCauseAtStopsAtMatch | components/Step5_Risk.tsx:24-54 | at a matched element only its functions change; its children are not visited |
| RiskStep.UpdateCauseAtRows | components/Step5_Risk.tsx:22-55 | without nested element ids, only the addressed cause's row changes, by the edit |
| RiskStep.UpdateCauseAtAbsent | components/Step5_Risk.tsx:22-55 | an address no row carries leaves the tree unchanged |
| RiskStep.UpdateCauseAtPreserves | components/Step5_Risk.tsx:22-55 | an edit preserving a cause property preserves it for all causes of the tree |
| RiskStep.ApplyCauseEdit | components/Step5_Risk.tsx:31-37 | the field is set; a score edit makes the priority that of the updated triple; a text edit keeps scores and priority |
| RiskStep.HandleScoreChange | components/Step5_Risk.tsx:14-58 | no contract of its own: `UpdateCauseAt` with `ApplyCauseEdit`; see HandleScoreChangeKeepsConsistent, HandleScoreChangeRows, HandleScoreChangeAbsent |
| RiskStep.HandleScoreChangeKeepsConsistent | components/Step5_Risk.tsx:22-57 | if every cause and action was rated by the rule, it still is after the edit |
| RiskStep.HandleScoreChangeRows | components/Step5_Risk.tsx:22-57 | without nested element ids, only the addressed row changes, by the edit |
| RiskStep.HandleScoreChangeAbsent | components/Step5_Risk.tsx:22-57 | an address not found leaves the tree unchanged |
| OptimizationStep.NewAction | components/Step6_Optimization.tsx:31-45 | Open, empty texts and dates, the cause's id, S/O/D and priority copied; consistent iff the cause is |
| OptimizationStep.ApplyActionEdit | components/Step6_Optimization.tsx:125-130 | a text, date or status edit sets exactly that field; a re-rating score edit sets the score, recomputes the priority from the updated triple and keeps every other field |
| OptimizationStep.EditActionsIn | components/Step6_Optimization.tsx:123-131 | only actions with the id change, by the edit |
| OptimizationStep.AddAction | components/Step6_Optimization.tsx:21-64 | no contract of its own: `UpdateCauseAt` appending `NewAction`; see ActionOpsOnCause, ActionOpsKeepConsistent, ActionOpsRows, ActionOpsAbsent |
| OptimizationStep.DeleteAction | components/Step6_Optimization.tsx:69-102 | no contract of its own: `UpdateCauseAt` filtering the actions; see ActionOpsOnCause, DeleteActionKeepsOrder, ActionOpsKeepConsistent |
| OptimizationStep.UpdateAction | components/Step6_Optimization.tsx:105-144 | no contract of its own: `UpdateCauseAt` with `EditActionsIn`; see ActionOpsOnCause, ActionOpsKeepConsistent, ActionOpsRows |
| OptimizationStep.ActionOpsOnCause | components/Step6_Optimization.tsx:46-130 | add appends exactly one new action; delete keeps exactly the others; update keeps count and order; cause fields kept |
| OptimizationStep.DeleteActionKeepsOrder | components/Step6_Optimization.tsx:89 | remaining actions keep their order |
| OptimizationStep.ActionOpsKeepConsistent | components/Step6_Optimization.tsx:21-144 | all three operations keep every cause and action rated by the rule |
| OptimizationStep.ActionOpsRows | components/Step6_Optimization.tsx:21-144 | without nested element ids, only the addressed cause's row changes, by the operation |
| OptimizationStep.ActionOpsAbsent | components/Step6_Optimization.tsx:22-141 | an address not found leaves the tree unchanged |
| OptimizationStep.RenderOptimizationRows | components/Step6_Optimization.tsx:146-284 | exactly the rows whose priority is not LOW or that have an action, in worksheet order |
| OptimizationStep.ShownBySeverity | components/Step6_Optimization.tsx:154 | for a rated cause: listed iff S >= 4 or it has an action |
| Csv.Escape | components/Step7_Results.tsx:18 | quote doubling never shortens and maps empty to empty |
| Csv.EncodeCell | components/Step7_Results.tsx:18 | a cell is wrapped in quotes |
| Csv.EncodeRow | components/Step7_Results.tsx:17-18 | no contract of its own: encoded cells joined by ","; see RecordRoundTrip |
| Csv.EncodeTable | components/Step7_Results.tsx:16-19 | no contract of its own: encoded rows joined by "\n"; see TableRoundTrip |
| Csv.ReadQuotedEscape | components/Step7_Results.tsx:18 | reading an escaped text up to its closing quote gives the text back |
| Csv.ReadCell | components/Step7_Results.tsx:18 | decoding an encoded cell by RFC 4180 gives its text and the rest |
| Csv.RecordRoundTrip | components/Step7_Results.tsx:17-18 | a non-empty row joined by "," reads back as its cells |
| Csv.TableRoundTrip | components/Step7_Results.tsx:16-19 | rows joined by "\n" read back as the table |
| ResultsStep.HeaderGroupsAsWrittenShort | components/Step7_Results.tsx:151-154 | as written, the group spans cover 19 of 20 columns |
| ResultsStep.HeaderGroupsCoverColumns | components/Step7_Results.tsx:150-177 | corrected groups cover the 20 columns and the optimisation group starts at "Action" |
| ResultsStep.NoActionRowAsWrittenShort | components/Step7_Results.tsx:72-78 | as written, a row without actions covers 19 columns, and its texts equal the corrected row's |
| ResultsStep.BaseTexts | components/Step7_Results.tsx:55-70 | twelve base cells |
| ResultsStep.BaseTextsDetermineRating | components/Step7_Results.tsx:62-68 | equal S, O, D cells exactly when the scores are equal, equal AP cells exactly when the priorities are |
| ResultsStep.ResultRowsFor | components/Step7_Results.tsx:72-110 | max(1, number of actions) rows per cause |
| ResultsStep.ResultRowsForShape | components/Step7_Results.tsx:55-110 | each row covers the 20 header columns and starts with the name; no actions: base cells plus "None"; action k: its 8 cells last; first row base cells, later rows name and 11 ditto marks |
| ResultsStep.EmitResultRows | components/Step7_Results.tsx:49-118 | row count is the sum over causes of max(1, actions); with the corrected "None" span, every row covers 20 columns |
| ResultsStep.RenderResultRows | components/Step7_Results.tsx:47-120 | rows in worksheet order; count is that sum, at least the number of causes; with the corrected "None" span, each covers the 20 header columns |
| ResultsStep.ResultTableTexts | components/Step7_Results.tsx:150-180 | the table is the group titles, the 20 names, then the body rows |
| ResultsStep.ExportCsv | components/Step7_Results.tsx:13-19 | no contract of its own: `EncodeTable` of the table texts; see ExportCsvRoundTrip |
| ResultsStep.ExportCsvRoundTrip | components/Step7_Results.tsx:13-19 | the exported CSV reads back by RFC 4180 as exactly the table's texts |

## Left out

- JSON export and import, and the download plumbing (Blob, object URL, link element). The CSV is built from the modelled rows; the `querySelectorAll` scraping of the rendered table is not modelled.
- The download file names derived from the project name.
- The confirmation and alert dialogs. Only the edit after a confirmation is modelled; a declined confirmation changes nothing.
- The service client that asks a language model for suggestions. Its results are parameters of the merges.
- The suggestion merges of Step 3 (`handleAISuggest`, components/Step3_Function.tsx:88-107) and Step 4 (components/Step4_Failure.tsx:77-91). They append new functions or failures built from a service result and are not modelled; the list edits they reuse (`updateNodeFunctions`, `updateFunctionFailures`) are.
- React state, rendering, CSS, expansion and loading flags, and the application shell.
- Step 1's project form and its presence check.
- Asynchrony: a service call completing after the tree changed works on the old tree in the source. The model's merges take the tree explicitly.
- Scores are integers. The source's `Number(...)` of a form value, fractional values and NaN are not modelled.
- Suggestion records are assumed well formed. Undefined fields are not modelled, except that empty texts take the source's fallbacks.
- Fresh ids are parameters; nothing in the source guarantees global id uniqueness.
- StructureStep.UpdateNodeNameOnlyTarget: states "only the target changes" under `NoNested` (no element with the id below another with the same id). With nested duplicates the source renames only the outermost copies, which `RebuildAt` models but this lemma does not describe.
- FunctionStep.UpdateNodeFunctionsOnlyTarget: stated under `NoNested` for the same reason; with nested duplicates only the outermost copy gets the new list.
- RiskStep.HandleScoreChangeRows: stated under `NoNested`, as `UpdateCauseAtRows` on which it rests.
- OptimizationStep.ActionOpsRows: stated under `NoNested`, as `UpdateCauseAtRows` on which it rests.
- ResultsStep.RenderResultRows: models `renderRows` with the "None" cell spanning 8 columns, the corrected span of the third finding; the source's 7 is `NoActionRowAsWritten`, whose texts are the same, so only the widths differ. The same holds for `EmitResultRows` and `ResultRowsFor`.
- RiskStep.UpdateCauseAtRows: the row-level "only the addressed cause changes" is stated under `NoNested` for the same reason. Without it, a nested duplicate element keeps its old causes.
- SeqUtil.IntToString: renders integers only. JavaScript's rendering of fractional numbers and NaN is not modelled.
- Csv.TableRoundTrip: holds for tables without empty rows. Every row of the results table has at least four cells.
- ResultsStep.ResultTableTexts: states the group-title row as the texts of the corrected header cells, not as a literal list.
- Whitespace and Unicode handling of `\s` in file names, and the `|| ""` on `textContent`, are not modelled.

## Findings

| source | as written | input that shows it | evidently intended | confidence | as-written member | corrected member |
|---|---|---|---|---|---|---|
| components/Step2_Structure.tsx:119-121 | on an empty tree, suggested children of the new root get `parentId: null` | empty tree, scope "Pump", suggestions ["Motor"] | children point at the new root, as in the non-empty branch (line 136) | medium, not executed | StructureStep.EmptyTreeMergeLeavesChildUnlinked | StructureStep.MergeStructureSuggestionsLinked |
| components/Step7_Results.tsx:151-154 | header group spans 3+3+6+7 = 19 over 20 named columns | any table | the Optimization group spans its 8 columns | high, not executed | ResultsStep.HeaderGroupsAsWrittenShort | ResultsStep.HeaderGroupsCoverColumns |
| components/Step7_Results.tsx:76 | the "None" cell spans 7 columns after 12 base cells, 19 in all | a cause without actions | span 8, as wide as the 8 action cells of the other rows | high, not executed | ResultsStep.NoActionRowAsWrittenShort | ResultsStep.ResultRowsForShape |

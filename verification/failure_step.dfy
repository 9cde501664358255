/** Step 4, failure analysis: the flat list of all functions, replacing a
    function's failure list wherever that function occurs, and the edits of
    the selected function's failures, their effects and their causes. */
module FailureStep {
  import opened FmeaTypes
  import opened ActionPriorityRule
  import opened Tree
  import opened SeqUtil

  /** One entry of the function list: the function and its element's name. */
  datatype FunctionEntry = FunctionEntry(func: FmeaFunction, nodeName: string)

  /** An element's own functions as entries, in order. */
  function EntriesOf(n: StructureNode): (r: seq<FunctionEntry>)
    ensures |r| == |n.functions|
    ensures forall i :: 0 <= i < |r| ==> r[i] == FunctionEntry(n.functions[i], n.name)
  {
    seq(|n.functions|, i requires 0 <= i < |n.functions| => FunctionEntry(n.functions[i], n.name))
  }

  /** The function list `getAllFunctions` builds: an element's own functions,
      then those of its subtree, then those of its following siblings. */
  function FunctionEntries(nodes: seq<StructureNode>): seq<FunctionEntry> {
    if nodes == [] then []
    else EntriesOf(nodes[0]) + FunctionEntries(nodes[0].children) + FunctionEntries(nodes[1..])
  }

  lemma {:induction false} FunctionEntriesConcat(a: seq<StructureNode>, b: seq<StructureNode>)
    ensures FunctionEntries(a + b) == FunctionEntries(a) + FunctionEntries(b)
  {
    if a == [] {
      assert a + b == b;
    } else {
      assert (a + b)[0] == a[0];
      assert (a + b)[1..] == a[1..] + b;
      FunctionEntriesConcat(a[1..], b);
    }
  }

  /** The entries of a flat list of elements, element by element. */
  function EntriesOfEach(ns: seq<StructureNode>): seq<FunctionEntry> {
    if ns == [] then [] else EntriesOf(ns[0]) + EntriesOfEach(ns[1..])
  }

  lemma {:induction false} EntriesOfEachConcat(a: seq<StructureNode>, b: seq<StructureNode>)
    ensures EntriesOfEach(a + b) == EntriesOfEach(a) + EntriesOfEach(b)
  {
    if a == [] {
      assert a + b == b;
    } else {
      assert (a + b)[0] == a[0];
      assert (a + b)[1..] == a[1..] + b;
      EntriesOfEachConcat(a[1..], b);
    }
  }

  /** The function list is the elements' functions in the pre-order of the
      elements: every element's own functions come before those of its
      descendants, and every function of every element is listed once. */
  lemma {:induction false} FunctionEntriesArePreorder(nodes: seq<StructureNode>)
    ensures FunctionEntries(nodes) == EntriesOfEach(AllNodes(nodes))
  {
    if nodes != [] {
      var n := nodes[0];
      FunctionEntriesArePreorder(n.children);
      FunctionEntriesArePreorder(nodes[1..]);
      EntriesOfEachConcat([n] + AllNodes(n.children), AllNodes(nodes[1..]));
      EntriesOfEachConcat([n], AllNodes(n.children));
      assert EntriesOfEach([n]) == EntriesOf(n) + EntriesOfEach([]);
    }
  }

  /** The total number of functions over a flat list of elements. */
  function FunctionCount(ns: seq<StructureNode>): nat {
    if ns == [] then 0 else |ns[0].functions| + FunctionCount(ns[1..])
  }

  lemma {:induction false} EntriesOfEachLength(ns: seq<StructureNode>)
    ensures |EntriesOfEach(ns)| == FunctionCount(ns)
  {
    if ns != [] {
      EntriesOfEachLength(ns[1..]);
    }
  }

  /** The list has one entry per function of the whole tree. */
  lemma FunctionEntriesLength(nodes: seq<StructureNode>)
    ensures |FunctionEntries(nodes)| == FunctionCount(AllNodes(nodes))
  {
    FunctionEntriesArePreorder(nodes);
    EntriesOfEachLength(AllNodes(nodes));
  }

  /** Extending the forest by one element extends the list by that
      element's functions and then its subtree's. */
  lemma FunctionEntriesSnoc(prefix: seq<StructureNode>, node: StructureNode)
    ensures FunctionEntries(prefix + [node]) == FunctionEntries(prefix) + EntriesOf(node) + FunctionEntries(node.children)
  {
    FunctionEntriesConcat(prefix, [node]);
    assert FunctionEntries([node]) == EntriesOf(node) + FunctionEntries(node.children) + FunctionEntries([]);
  }

  /** `getAllFunctions`: for each element push its own functions, then append
      the list built for its children. */
  method GetAllFunctions(nodes: seq<StructureNode>) returns (list: seq<FunctionEntry>)
    ensures list == FunctionEntries(nodes)
    decreases nodes
  {
    list := [];
    var i := 0;
    while i < |nodes|
      invariant 0 <= i <= |nodes|
      invariant list == FunctionEntries(nodes[..i])
    {
      var node := nodes[i];
      ghost var before := list;
      var j := 0;
      while j < |node.functions|
        invariant 0 <= j <= |node.functions|
        invariant list == before + EntriesOf(node)[..j]
      {
        list := list + [FunctionEntry(node.functions[j], node.name)];
        assert EntriesOf(node)[..j + 1] == EntriesOf(node)[..j] + [EntriesOf(node)[j]];
        j := j + 1;
      }
      assert EntriesOf(node)[..j] == EntriesOf(node);
      var sub := GetAllFunctions(node.children);
      list := list + sub;
      assert nodes[..i + 1] == nodes[..i] + [node];
      FunctionEntriesSnoc(nodes[..i], node);
      i := i + 1;
    }
    assert nodes[..i] == nodes;
  }

  /** `allFunctions.find(...)`: the first entry whose function has the
      selected id; nothing is selected by `None`. */
  function FindEntry(entries: seq<FunctionEntry>, selectedFuncId: Option<string>): (r: Option<FunctionEntry>)
    ensures r.None? <==> selectedFuncId.None? || forall e :: e in entries ==> e.func.id != selectedFuncId.value
    ensures r.Some? ==> r.value in entries && r.value.func.id == selectedFuncId.value
    ensures r.Some? ==> exists k :: 0 <= k < |entries| && entries[k] == r.value
                                    && forall j :: 0 <= j < k ==> entries[j].func.id != selectedFuncId.value
  {
    if selectedFuncId.None? || entries == [] then None
    else if entries[0].func.id == selectedFuncId.value then Some(entries[0])
    else FindEntry(entries[1..], selectedFuncId)
  }

  /** `selectedFunctionObj`. */
  function SelectedFunction(structure: seq<StructureNode>, selectedFuncId: Option<string>): Option<FunctionEntry> {
    FindEntry(FunctionEntries(structure), selectedFuncId)
  }

  /** The failure list of every function with the id replaced. */
  function SetFailures(fs: seq<FmeaFunction>, funcId: string, failures: seq<FmeaFailure>): (r: seq<FmeaFunction>)
    ensures |r| == |fs|
    ensures forall i :: 0 <= i < |fs| ==> r[i].id == fs[i].id
  {
    seq(|fs|, i requires 0 <= i < |fs| => if fs[i].id == funcId then fs[i].(failures := failures) else fs[i])
  }

  /** `updateFunctionFailures`: visit every element at every depth (a match
      does not stop the descent) and replace the failures of every function
      carrying the id. Element ids are unchanged. */
  function UpdateFunctionFailures(nodes: seq<StructureNode>, funcId: string, failures: seq<FmeaFailure>): (r: seq<StructureNode>)
    ensures |r| == |nodes|
    ensures IdSet(r) == IdSet(nodes)
  {
    if nodes == [] then []
    else
      var n := nodes[0];
      var head := n.(functions := SetFailures(n.functions, funcId, failures),
                     children := UpdateFunctionFailures(n.children, funcId, failures));
      [head] + UpdateFunctionFailures(nodes[1..], funcId, failures)
  }

  /** Two forests agree element by element in pre-order on everything but
      the function lists (and the subtrees, compared separately). */
  predicate SameOutline(a: seq<StructureNode>, b: seq<StructureNode>) {
    |a| == |b| &&
    forall k :: 0 <= k < |a| ==> a[k].(functions := [], children := []) == b[k].(functions := [], children := [])
  }

  lemma SameOutlineConcat(a1: seq<StructureNode>, b1: seq<StructureNode>, a2: seq<StructureNode>, b2: seq<StructureNode>)
    requires SameOutline(a1, b1) && SameOutline(a2, b2)
    ensures SameOutline(a1 + a2, b1 + b2)
  {
    forall k | |a1| <= k < |a1 + a2|
      ensures (a1 + a2)[k].(functions := [], children := []) == (b1 + b2)[k].(functions := [], children := [])
    {
      assert (a1 + a2)[k] == a2[k - |a1|];
      assert (b1 + b2)[k] == b2[k - |a1|];
    }
  }

  /** Every element keeps its id, parent id, name, kind and position in the
      pre-order walk, whether or not it owns functions; only function lists
      change. */
  lemma {:induction false} UpdateFunctionFailuresOutline(nodes: seq<StructureNode>, funcId: string, failures: seq<FmeaFailure>)
    ensures SameOutline(AllNodes(UpdateFunctionFailures(nodes, funcId, failures)), AllNodes(nodes))
  {
    if nodes != [] {
      var r := UpdateFunctionFailures(nodes, funcId, failures);
      assert r[1..] == UpdateFunctionFailures(nodes[1..], funcId, failures);
      UpdateFunctionFailuresOutline(nodes[0].children, funcId, failures);
      UpdateFunctionFailuresOutline(nodes[1..], funcId, failures);
      assert SameOutline([r[0]], [nodes[0]]);
      SameOutlineConcat([r[0]], [nodes[0]], AllNodes(r[0].children), AllNodes(nodes[0].children));
      SameOutlineConcat([r[0]] + AllNodes(r[0].children), [nodes[0]] + AllNodes(nodes[0].children),
                        AllNodes(r[1..]), AllNodes(nodes[1..]));
    }
  }

  /** The entry list with the failures of every function carrying the id replaced. */
  function ReplaceFailures(entries: seq<FunctionEntry>, funcId: string, failures: seq<FmeaFailure>): (r: seq<FunctionEntry>)
    ensures |r| == |entries|
  {
    seq(|entries|, k requires 0 <= k < |entries| =>
      if entries[k].func.id == funcId then entries[k].(func := entries[k].func.(failures := failures)) else entries[k])
  }

  lemma ReplaceFailuresConcat(a: seq<FunctionEntry>, b: seq<FunctionEntry>, funcId: string, failures: seq<FmeaFailure>)
    ensures ReplaceFailures(a + b, funcId, failures) == ReplaceFailures(a, funcId, failures) + ReplaceFailures(b, funcId, failures)
  {
  }

  /** Seen through the function list, the update replaces the failures of
      exactly the functions with the id, wherever they sit, and keeps every
      entry's position, function id and element name. */
  lemma {:induction false} UpdateFunctionFailuresEntries(nodes: seq<StructureNode>, funcId: string, failures: seq<FmeaFailure>)
    ensures FunctionEntries(UpdateFunctionFailures(nodes, funcId, failures))
         == ReplaceFailures(FunctionEntries(nodes), funcId, failures)
  {
    if nodes != [] {
      var n := nodes[0];
      var r := UpdateFunctionFailures(nodes, funcId, failures);
      assert r[1..] == UpdateFunctionFailures(nodes[1..], funcId, failures);
      UpdateFunctionFailuresEntries(n.children, funcId, failures);
      UpdateFunctionFailuresEntries(nodes[1..], funcId, failures);
      assert EntriesOf(r[0]) == ReplaceFailures(EntriesOf(n), funcId, failures);
      ReplaceFailuresConcat(EntriesOf(n) + FunctionEntries(n.children), FunctionEntries(nodes[1..]), funcId, failures);
      ReplaceFailuresConcat(EntriesOf(n), FunctionEntries(n.children), funcId, failures);
    }
  }

  /** No function carries the id: nothing changes. */
  lemma {:induction false} UpdateFunctionFailuresAbsent(nodes: seq<StructureNode>, funcId: string, failures: seq<FmeaFailure>)
    requires forall e :: e in FunctionEntries(nodes) ==> e.func.id != funcId
    ensures UpdateFunctionFailures(nodes, funcId, failures) == nodes
  {
    if nodes != [] {
      var n := nodes[0];
      FunctionEntriesConcat([n], nodes[1..]);
      assert [n] + nodes[1..] == nodes;
      assert FunctionEntries([n]) == EntriesOf(n) + FunctionEntries(n.children) + FunctionEntries([]);
      forall i | 0 <= i < |n.functions| ensures n.functions[i].id != funcId {
        assert EntriesOf(n)[i] in FunctionEntries(nodes);
      }
      assert SetFailures(n.functions, funcId, failures) == n.functions;
      UpdateFunctionFailuresAbsent(n.children, funcId, failures);
      UpdateFunctionFailuresAbsent(nodes[1..], funcId, failures);
    }
  }

  /** A new, empty failure mode of a function. */
  function NewFailure(id: string, functionId: string): FmeaFailure {
    FmeaFailure(id, functionId, "", [], [])
  }

  /** A new cause as `addCause` creates it: unrated, with priority LOW. */
  function NewCause(id: string, failureId: string): (c: FmeaCause)
    ensures c.id == id && c.failureId == failureId && c.description == "New Cause"
    ensures c.severity == 0 && c.occurrence == 0 && c.detection == 0 && c.actions == []
    ensures c.actionPriority == LOW && CauseRated(c)
  {
    FmeaCause(id, failureId, "New Cause", "", "", 0, 0, 0, LOW, [])
  }

  /** `addFailureMode`: with a (truthy) selected function id, that function's
      failures become its current list (the empty list when the id is not in
      the function list) followed by a new empty failure. */
  function AddFailureMode(structure: seq<StructureNode>, selectedFuncId: Option<string>, newId: string): (r: seq<StructureNode>)
    ensures !Truthy(selectedFuncId) ==> r == structure
    ensures IdSet(r) == IdSet(structure)
  {
    if !Truthy(selectedFuncId) then structure
    else
      var current := match SelectedFunction(structure, selectedFuncId)
                     case Some(entry) => entry.func.failures
                     case None => [];
      UpdateFunctionFailures(structure, selectedFuncId.value, current + [NewFailure(newId, selectedFuncId.value)])
  }

  /** With a selected function found, every function with its id ends up
      with the selected function's failures followed by the new failure, and
      nothing else in the function list changes. */
  lemma AddFailureModeEntries(structure: seq<StructureNode>, funcId: string, newId: string)
    requires funcId != ""
    requires SelectedFunction(structure, Some(funcId)).Some?
    ensures var old_ := SelectedFunction(structure, Some(funcId)).value.func.failures;
            var added := FmeaFailure(newId, funcId, "", [], []);
            FunctionEntries(AddFailureMode(structure, Some(funcId), newId))
              == ReplaceFailures(FunctionEntries(structure), funcId, old_ + [added])
  {
    var old_ := SelectedFunction(structure, Some(funcId)).value.func.failures;
    UpdateFunctionFailuresEntries(structure, funcId, old_ + [NewFailure(newId, funcId)]);
  }

  /** The whole-field assignments `updateFailure` is called with. */
  datatype FailureEdit =
    | SetMode(mode: string)
    | SetEffects(effects: seq<string>)
    | SetCauses(causes: seq<FmeaCause>)

  /** `{ ...f, [field]: value }` for a failure. */
  function ApplyFailureEdit(f: FmeaFailure, edit: FailureEdit): (r: FmeaFailure)
    ensures r.id == f.id && r.functionId == f.functionId
    ensures r.failureMode == (if edit.SetMode? then edit.mode else f.failureMode)
    ensures r.failureEffects == (if edit.SetEffects? then edit.effects else f.failureEffects)
    ensures r.failureCauses == (if edit.SetCauses? then edit.causes else f.failureCauses)
  {
    match edit
    case SetMode(mode) => f.(failureMode := mode)
    case SetEffects(effects) => f.(failureEffects := effects)
    case SetCauses(causes) => f.(failureCauses := causes)
  }

  /** The failure list with the failures carrying the id edited. */
  function EditFailureIn(fs: seq<FmeaFailure>, failureId: string, edit: FailureEdit): (r: seq<FmeaFailure>)
    ensures |r| == |fs|
    ensures forall i :: 0 <= i < |fs| ==> r[i].id == fs[i].id
    ensures forall i :: 0 <= i < |fs| && fs[i].id != failureId ==> r[i] == fs[i]
    ensures forall i :: 0 <= i < |fs| && fs[i].id == failureId ==> r[i] == ApplyFailureEdit(fs[i], edit)
  {
    seq(|fs|, i requires 0 <= i < |fs| => if fs[i].id == failureId then ApplyFailureEdit(fs[i], edit) else fs[i])
  }

  /** Replace the selected function's failure list by `g` of it, as every
      failure edit of the step does; without a selected function nothing
      changes. */
  function EditSelectedFailures(structure: seq<StructureNode>, selectedFuncId: Option<string>,
                                newFailures: seq<FmeaFailure> -> seq<FmeaFailure>): (r: seq<StructureNode>)
    ensures SelectedFunction(structure, selectedFuncId).None? ==> r == structure
    ensures IdSet(r) == IdSet(structure)
  {
    match SelectedFunction(structure, selectedFuncId)
    case None => structure
    case Some(entry) => UpdateFunctionFailures(structure, entry.func.id, newFailures(entry.func.failures))
  }

  /** The edit of a failure list that `updateFailure` performs. */
  function EditFailureOp(failureId: string, edit: FailureEdit): seq<FmeaFailure> -> seq<FmeaFailure> {
    (fs: seq<FmeaFailure>) => EditFailureIn(fs, failureId, edit)
  }

  /** `updateFailure`. */
  function UpdateFailure(structure: seq<StructureNode>, selectedFuncId: Option<string>, failureId: string, edit: FailureEdit): seq<StructureNode> {
    EditSelectedFailures(structure, selectedFuncId, EditFailureOp(failureId, edit))
  }

  /** Every selected-failure edit, seen through the function list: the
      functions with the selected id get `g` of the selected function's
      failures and every other entry is unchanged. */
  lemma EditSelectedFailuresEntries(structure: seq<StructureNode>, selectedFuncId: Option<string>,
                                    newFailures: seq<FmeaFailure> -> seq<FmeaFailure>)
    requires SelectedFunction(structure, selectedFuncId).Some?
    ensures var sel := SelectedFunction(structure, selectedFuncId).value.func;
            FunctionEntries(EditSelectedFailures(structure, selectedFuncId, newFailures))
              == ReplaceFailures(FunctionEntries(structure), sel.id, newFailures(sel.failures))
  {
    var sel := SelectedFunction(structure, selectedFuncId).value.func;
    UpdateFunctionFailuresEntries(structure, sel.id, newFailures(sel.failures));
  }

  /** `addCause`: the failure's causes (as the caller holds them) followed by a new cause. */
  function AddCause(structure: seq<StructureNode>, selectedFuncId: Option<string>, failure: FmeaFailure, newId: string): seq<StructureNode> {
    UpdateFailure(structure, selectedFuncId, failure.id, SetCauses(failure.failureCauses + [NewCause(newId, failure.id)]))
  }

  /** Removing a failure, as a list edit. */
  function DeleteFailureOp(failureId: string): seq<FmeaFailure> -> seq<FmeaFailure> {
    (fs: seq<FmeaFailure>) => Filter(fs, (f: FmeaFailure) => f.id != failureId)
  }

  /** The delete button of a failure card: drop exactly the failures with the
      id, which drops their causes and actions with them. */
  function DeleteFailure(structure: seq<StructureNode>, selectedFuncId: Option<string>, failureId: string): seq<StructureNode> {
    EditSelectedFailures(structure, selectedFuncId, DeleteFailureOp(failureId))
  }

  /** The failures left by a deletion are exactly the others, in their order. */
  lemma DeleteFailureOpSpec(fs: seq<FmeaFailure>, failureId: string)
    ensures forall f :: f in DeleteFailureOp(failureId)(fs) <==> f in fs && f.id != failureId
    ensures |DeleteFailureOp(failureId)(fs)| < |fs| <==> exists f :: f in fs && f.id == failureId
  {
    var r := DeleteFailureOp(failureId)(fs);
    if forall f :: f in fs ==> f.id != failureId {
      FilterKeepsAll(fs, (f: FmeaFailure) => f.id != failureId);
    } else {
      var f :| f in fs && f.id == failureId;
      DeleteFailureShorter(fs, failureId, f);
    }
  }

  lemma {:induction false} DeleteFailureShorter(fs: seq<FmeaFailure>, failureId: string, f: FmeaFailure)
    requires f in fs && f.id == failureId
    ensures |Filter(fs, (g: FmeaFailure) => g.id != failureId)| < |fs|
  {
    if fs[0] != f {
      DeleteFailureShorter(fs[1..], failureId, f);
    }
  }

  /** The add-effect button: the failure's effects followed by an empty effect. */
  function AddEffect(structure: seq<StructureNode>, selectedFuncId: Option<string>, failure: FmeaFailure): seq<StructureNode> {
    UpdateFailure(structure, selectedFuncId, failure.id, SetEffects(failure.failureEffects + [""]))
  }

  /** Editing effect `eIdx` (one of the rendered effects): only that entry
      changes. */
  function EditEffect(structure: seq<StructureNode>, selectedFuncId: Option<string>, failure: FmeaFailure,
                      eIdx: nat, value: string): seq<StructureNode>
    requires eIdx < |failure.failureEffects|
  {
    UpdateFailure(structure, selectedFuncId, failure.id, SetEffects(failure.failureEffects[eIdx := value]))
  }

  /** Editing the description of cause `cIdx` (one of the rendered causes). */
  function EditCauseDescription(structure: seq<StructureNode>, selectedFuncId: Option<string>, failure: FmeaFailure,
                                cIdx: nat, value: string): seq<StructureNode>
    requires cIdx < |failure.failureCauses|
  {
    var causes := failure.failureCauses;
    UpdateFailure(structure, selectedFuncId, failure.id, SetCauses(causes[cIdx := causes[cIdx].(description := value)]))
  }

  /** The edit each effect/cause editor hands to `updateFailure`, as the
      edited failure sees it: adding an effect appends "" and keeps the
      others, editing effect `eIdx` keeps the length and every other entry,
      a new cause is appended unrated with priority LOW. */
  lemma FailureCardEdits(failure: FmeaFailure, eIdx: nat, value: string, newId: string)
    requires eIdx < |failure.failureEffects|
    ensures var added := ApplyFailureEdit(failure, SetEffects(failure.failureEffects + [""])).failureEffects;
            |added| == |failure.failureEffects| + 1 && added[..|failure.failureEffects|] == failure.failureEffects
            && added[|failure.failureEffects|] == ""
    ensures var edited := ApplyFailureEdit(failure, SetEffects(failure.failureEffects[eIdx := value])).failureEffects;
            |edited| == |failure.failureEffects| && edited[eIdx] == value
            && forall i :: 0 <= i < |edited| && i != eIdx ==> edited[i] == failure.failureEffects[i]
    ensures var causes := ApplyFailureEdit(failure, SetCauses(failure.failureCauses + [NewCause(newId, failure.id)])).failureCauses;
            |causes| == |failure.failureCauses| + 1 && causes[..|failure.failureCauses|] == failure.failureCauses
            && causes[|failure.failureCauses|].failureId == failure.id && CauseRated(causes[|failure.failureCauses|])
  {
  }

  /** The edit the cause-description editor hands to `updateFailure`, as the
      edited failure sees it: cause `cIdx` gets the new description, keeping
      its id, scores, priority and actions; every other cause is unchanged;
      a rated cause stays rated. */
  lemma EditCauseDescriptionEdit(failure: FmeaFailure, cIdx: nat, value: string)
    requires cIdx < |failure.failureCauses|
    ensures var causes := failure.failureCauses;
            var edited := ApplyFailureEdit(failure, SetCauses(causes[cIdx := causes[cIdx].(description := value)])).failureCauses;
            |edited| == |causes| && edited[cIdx] == causes[cIdx].(description := value)
            && (forall i :: 0 <= i < |edited| && i != cIdx ==> edited[i] == causes[i])
            && (CauseRated(causes[cIdx]) ==> CauseRated(edited[cIdx]))
  {
  }

  /** The record the risk-analysis service returns. */
  datatype RiskSuggestion = RiskSuggestion(effect: string, cause: string, prevention: string, detection: string)

  /** `a || b` on strings. */
  function OrElse(a: string, b: string): (r: string)
    ensures a != "" ==> r == a
    ensures a == "" ==> r == b
  {
    if a != "" then a else b
  }

  /** The cause the deep analysis creates: the suggested texts (with the
      fallbacks for empty ones), unrated, priority LOW. */
  function SuggestedCause(id: string, failureId: string, s: RiskSuggestion): (c: FmeaCause)
    ensures c.description == (if s.cause != "" then s.cause else "Suggested Cause")
    ensures c.preventionControl == s.prevention && c.detectionControl == s.detection
    ensures c.id == id && c.failureId == failureId && c.actions == []
    ensures c.severity == 0 && c.occurrence == 0 && c.detection == 0 && c.actionPriority == LOW
  {
    FmeaCause(id, failureId, OrElse(s.cause, "Suggested Cause"), OrElse(s.prevention, ""), OrElse(s.detection, ""),
              0, 0, 0, LOW, [])
  }

  /** The failure-list edit of `handleDeepAnalysis`: the failures with the
      analysed failure's id get the caller's effects plus the suggested
      effect, and their own causes plus the new cause. */
  function DeepAnalysisOp(failure: FmeaFailure, s: RiskSuggestion, newId: string): seq<FmeaFailure> -> seq<FmeaFailure> {
    (fs: seq<FmeaFailure>) =>
      seq(|fs|, i requires 0 <= i < |fs| =>
        if fs[i].id == failure.id
        then fs[i].(failureEffects := failure.failureEffects + [s.effect],
                    failureCauses := fs[i].failureCauses + [SuggestedCause(newId, failure.id, s)])
        else fs[i])
  }

  /** `handleDeepAnalysis` given the service result (`None` when it is
      falsy or the call failed): no result or no selected function (the
      non-null assertion then throws and the error is swallowed) changes
      nothing. */
  function DeepAnalysisMerge(structure: seq<StructureNode>, selectedFuncId: Option<string>, failure: FmeaFailure,
                             result: Option<RiskSuggestion>, newId: string): (r: seq<StructureNode>)
    ensures result.None? ==> r == structure
    ensures SelectedFunction(structure, selectedFuncId).None? ==> r == structure
  {
    match result
    case None => structure
    case Some(s) => EditSelectedFailures(structure, selectedFuncId, DeepAnalysisOp(failure, s, newId))
  }

  /** What the merge does to a failure list: same length and ids, the other
      failures unchanged, the analysed one extended by one effect and one
      cause. */
  lemma DeepAnalysisOpSpec(fs: seq<FmeaFailure>, failure: FmeaFailure, s: RiskSuggestion, newId: string)
    ensures var r := DeepAnalysisOp(failure, s, newId)(fs);
            |r| == |fs|
            && (forall i :: 0 <= i < |fs| && fs[i].id != failure.id ==> r[i] == fs[i])
            && (forall i :: 0 <= i < |fs| && fs[i].id == failure.id ==>
                  r[i].id == fs[i].id && r[i].failureMode == fs[i].failureMode
                  && r[i].failureEffects == failure.failureEffects + [s.effect]
                  && |r[i].failureCauses| == |fs[i].failureCauses| + 1
                  && r[i].failureCauses[..|fs[i].failureCauses|] == fs[i].failureCauses
                  && r[i].failureCauses[|fs[i].failureCauses|] == SuggestedCause(newId, failure.id, s))
  {
  }
}

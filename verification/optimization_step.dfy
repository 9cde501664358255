/** Step 6, optimisation: adding, deleting and editing the actions of the
    addressed cause, with the re-rated priority recomputed, and the list of
    causes the step shows. */
module OptimizationStep {
  import opened FmeaTypes
  import opened ActionPriorityRule
  import opened Tree
  import opened SeqUtil
  import opened RiskStep

  /** The action `addAction` creates: open, with empty texts and dates, and
      the cause's current scores and priority as its re-rating. */
  function NewAction(id: string, c: FmeaCause): (a: FmeaAction)
    ensures a.id == id && a.causeId == c.id && a.status == Open
    ensures a.description == "" && a.responsible == "" && a.targetDate == ""
    ensures a.takenAction == "" && a.completionDate == ""
    ensures a.newSeverity == c.severity && a.newOccurrence == c.occurrence && a.newDetection == c.detection
    ensures a.newActionPriority == c.actionPriority
    ensures CauseRated(c) <==> ActionRated(a)
  {
    FmeaAction(id, c.id, "", "", "", Open, "", "", c.severity, c.occurrence, c.detection, c.actionPriority)
  }

  /** Appending a new action, as an edit of the addressed cause. */
  function AddActionOp(newId: string): FmeaCause -> FmeaCause {
    (c: FmeaCause) => c.(actions := c.actions + [NewAction(newId, c)])
  }

  /** Removing the actions with the id, as an edit of the addressed cause. */
  function DeleteActionOp(actionId: string): FmeaCause -> FmeaCause {
    (c: FmeaCause) => c.(actions := Filter(c.actions, (a: FmeaAction) => a.id != actionId))
  }

  /** The fields of an action the step edits, with the new value. */
  datatype ActionEdit =
    | SetDescription(text: string)
    | SetResponsible(text: string)
    | SetTargetDate(text: string)
    | SetTakenAction(text: string)
    | SetStatus(status: ActionStatus)
    | SetCompletionDate(text: string)
    | SetNewSeverity(score: int)
    | SetNewOccurrence(score: int)
    | SetNewDetection(score: int)
  {
    predicate IsScore() { SetNewSeverity? || SetNewOccurrence? || SetNewDetection? }
  }

  /** `{ ...a, [field]: value }`, with the re-rated priority recomputed from
      the updated triple when one of the three re-rating scores changes. */
  function ApplyActionEdit(a: FmeaAction, e: ActionEdit): (r: FmeaAction)
    ensures r.id == a.id && r.causeId == a.causeId
    ensures r.newSeverity == (if e.SetNewSeverity? then e.score else a.newSeverity)
    ensures r.newOccurrence == (if e.SetNewOccurrence? then e.score else a.newOccurrence)
    ensures r.newDetection == (if e.SetNewDetection? then e.score else a.newDetection)
    ensures e.IsScore() ==> ActionRated(r)
    ensures e.IsScore() ==> r.(newSeverity := a.newSeverity, newOccurrence := a.newOccurrence,
                               newDetection := a.newDetection, newActionPriority := a.newActionPriority) == a
    ensures !e.IsScore() ==> r.newActionPriority == a.newActionPriority
    ensures e.SetDescription? ==> r == a.(description := e.text)
    ensures e.SetResponsible? ==> r == a.(responsible := e.text)
    ensures e.SetTargetDate? ==> r == a.(targetDate := e.text)
    ensures e.SetTakenAction? ==> r == a.(takenAction := e.text)
    ensures e.SetStatus? ==> r == a.(status := e.status)
    ensures e.SetCompletionDate? ==> r == a.(completionDate := e.text)
  {
    match e
    case SetDescription(text) => a.(description := text)
    case SetResponsible(text) => a.(responsible := text)
    case SetTargetDate(text) => a.(targetDate := text)
    case SetTakenAction(text) => a.(takenAction := text)
    case SetStatus(status) => a.(status := status)
    case SetCompletionDate(text) => a.(completionDate := text)
    case SetNewSeverity(s) => a.(newSeverity := s, newActionPriority := CalculateAP(s, a.newOccurrence, a.newDetection))
    case SetNewOccurrence(o) => a.(newOccurrence := o, newActionPriority := CalculateAP(a.newSeverity, o, a.newDetection))
    case SetNewDetection(d) => a.(newDetection := d, newActionPriority := CalculateAP(a.newSeverity, a.newOccurrence, d))
  }

  /** The actions with the id edited. */
  function EditActionsIn(actions: seq<FmeaAction>, actionId: string, e: ActionEdit): (r: seq<FmeaAction>)
    ensures |r| == |actions|
    ensures forall i :: 0 <= i < |actions| && actions[i].id != actionId ==> r[i] == actions[i]
    ensures forall i :: 0 <= i < |actions| && actions[i].id == actionId ==> r[i] == ApplyActionEdit(actions[i], e)
  {
    seq(|actions|, i requires 0 <= i < |actions| => if actions[i].id == actionId then ApplyActionEdit(actions[i], e) else actions[i])
  }

  /** Editing an action, as an edit of the addressed cause. */
  function UpdateActionOp(actionId: string, e: ActionEdit): FmeaCause -> FmeaCause {
    (c: FmeaCause) => c.(actions := EditActionsIn(c.actions, actionId, e))
  }

  /** `addAction`. */
  function AddAction(structure: seq<StructureNode>, addr: CauseAddress, newId: string): seq<StructureNode> {
    UpdateCauseAt(structure, addr, AddActionOp(newId))
  }

  /** `deleteAction`, after the confirmation. */
  function DeleteAction(structure: seq<StructureNode>, addr: CauseAddress, actionId: string): seq<StructureNode> {
    UpdateCauseAt(structure, addr, DeleteActionOp(actionId))
  }

  /** `updateAction`. */
  function UpdateAction(structure: seq<StructureNode>, addr: CauseAddress, actionId: string, e: ActionEdit): seq<StructureNode> {
    UpdateCauseAt(structure, addr, UpdateActionOp(actionId, e))
  }

  /** What each operation does to the addressed cause: its id, scores,
      texts and priority stay; `addAction` appends exactly one new action
      after the existing ones; `deleteAction` keeps exactly the other
      actions; `updateAction` keeps the number and order of actions and
      changes only those with the id. */
  lemma ActionOpsOnCause(c: FmeaCause, newId: string, actionId: string, e: ActionEdit)
    ensures var r := AddActionOp(newId)(c);
            r.(actions := c.actions) == c && |r.actions| == |c.actions| + 1
            && r.actions[..|c.actions|] == c.actions && r.actions[|c.actions|] == NewAction(newId, c)
    ensures var r := DeleteActionOp(actionId)(c);
            r.(actions := c.actions) == c && |r.actions| <= |c.actions|
            && forall a :: a in r.actions <==> a in c.actions && a.id != actionId
    ensures var r := UpdateActionOp(actionId, e)(c);
            r.(actions := c.actions) == c && |r.actions| == |c.actions|
            && forall i :: 0 <= i < |c.actions| ==>
                 r.actions[i] == (if c.actions[i].id == actionId then ApplyActionEdit(c.actions[i], e) else c.actions[i])
  {
  }

  /** Deleting keeps the remaining actions in their order. */
  lemma DeleteActionKeepsOrder(a: seq<FmeaAction>, b: seq<FmeaAction>, actionId: string)
    ensures Filter(a + b, (x: FmeaAction) => x.id != actionId)
         == Filter(a, (x: FmeaAction) => x.id != actionId) + Filter(b, (x: FmeaAction) => x.id != actionId)
  {
    FilterConcat(a, b, (x: FmeaAction) => x.id != actionId);
  }

  /** All three operations keep every cause consistent: a new action copies
      a consistent cause's scores and priority, so it is consistent itself;
      deleting only drops actions; a re-rating score edit recomputes the
      priority and any other edit leaves scores and priority alone. */
  lemma ActionOpsKeepConsistent(structure: seq<StructureNode>, addr: CauseAddress, newId: string, actionId: string, e: ActionEdit)
    ensures TreeCausesAll(structure, Consistent) ==> TreeCausesAll(AddAction(structure, addr, newId), Consistent)
    ensures TreeCausesAll(structure, Consistent) ==> TreeCausesAll(DeleteAction(structure, addr, actionId), Consistent)
    ensures TreeCausesAll(structure, Consistent) ==> TreeCausesAll(UpdateAction(structure, addr, actionId, e), Consistent)
  {
    forall c | Consistent(c) ensures Consistent(DeleteActionOp(actionId)(c)) {
      var r := DeleteActionOp(actionId)(c);
      forall i | 0 <= i < |r.actions| ensures ActionRated(r.actions[i]) {
        assert r.actions[i] in c.actions;
      }
    }
    UpdateCauseAtPreserves(structure, addr, AddActionOp(newId), Consistent);
    UpdateCauseAtPreserves(structure, addr, DeleteActionOp(actionId), Consistent);
    UpdateCauseAtPreserves(structure, addr, UpdateActionOp(actionId, e), Consistent);
  }

  /** Seen through the worksheet rows (with no nested occurrence of the
      element id): only the addressed cause's row changes, by the edit. */
  lemma ActionOpsRows(structure: seq<StructureNode>, addr: CauseAddress, newId: string, actionId: string, e: ActionEdit)
    requires NoNested(structure, addr.nodeId)
    ensures CauseRows(AddAction(structure, addr, newId)) == EditRows(CauseRows(structure), addr, AddActionOp(newId))
    ensures CauseRows(DeleteAction(structure, addr, actionId)) == EditRows(CauseRows(structure), addr, DeleteActionOp(actionId))
    ensures CauseRows(UpdateAction(structure, addr, actionId, e)) == EditRows(CauseRows(structure), addr, UpdateActionOp(actionId, e))
  {
    UpdateCauseAtRows(structure, addr, AddActionOp(newId));
    UpdateCauseAtRows(structure, addr, DeleteActionOp(actionId));
    UpdateCauseAtRows(structure, addr, UpdateActionOp(actionId, e));
  }

  /** An address no row carries: all three operations change nothing. */
  lemma ActionOpsAbsent(structure: seq<StructureNode>, addr: CauseAddress, newId: string, actionId: string, e: ActionEdit)
    requires forall row :: row in CauseRows(structure) ==> AddressOf(row) != addr
    ensures AddAction(structure, addr, newId) == structure
    ensures DeleteAction(structure, addr, actionId) == structure
    ensures UpdateAction(structure, addr, actionId, e) == structure
  {
    UpdateCauseAtAbsent(structure, addr, AddActionOp(newId));
    UpdateCauseAtAbsent(structure, addr, DeleteActionOp(actionId));
    UpdateCauseAtAbsent(structure, addr, UpdateActionOp(actionId, e));
  }

  /** The inclusion rule of `renderOptimizationRows`: a cause is listed
      unless its priority is LOW and it has no action. */
  predicate Shown(r: CauseRow) {
    !(r.cause.actionPriority == LOW && |r.cause.actions| == 0)
  }

  /** Emitting a row when it is shown. */
  function IfShown(): CauseRow -> seq<CauseRow> {
    (r: CauseRow) => if Shown(r) then [r] else []
  }

  lemma {:induction false} EmitShownIsFilter(rows: seq<CauseRow>)
    ensures EmitAll(rows, IfShown()) == Filter(rows, Shown)
  {
    if rows != [] {
      EmitShownIsFilter(rows[1..]);
    }
  }

  /** `renderOptimizationRows`: the worksheet rows that are shown, in
      worksheet order. */
  method RenderOptimizationRows(structure: seq<StructureNode>) returns (rows: seq<CauseRow>)
    ensures rows == Filter(CauseRows(structure), Shown)
    ensures forall r :: r in rows <==> r in CauseRows(structure) && (r.cause.actionPriority != LOW || |r.cause.actions| > 0)
  {
    rows := WalkCauses(structure, [], IfShown());
    EmitShownIsFilter(CauseRows(structure));
  }

  /** For a consistent cause the rule reads: listed when its severity is 4
      or more, or when it already has an action. */
  lemma ShownBySeverity(r: CauseRow)
    requires CauseRated(r.cause)
    ensures Shown(r) <==> r.cause.severity >= 4 || |r.cause.actions| > 0
  {
  }
}

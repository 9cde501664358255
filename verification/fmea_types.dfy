/** The FMEA analysis data model: a strict containment tree
    StructureNode -> FmeaFunction -> FmeaFailure -> FmeaCause -> FmeaAction,
    every child carrying the id of its logical parent. All entities are
    immutable values; every edit in the other modules builds a new tree. */
module FmeaTypes {

  /** A nullable value (`T | null` in the source). */
  datatype Option<T> = None | Some(value: T)

  /** JavaScript truthiness of a nullable string: `null` and `""` are falsy. */
  predicate Truthy(s: Option<string>) {
    s.Some? && s.value != ""
  }

  /** The three kinds of analysis, with the text each enum member carries. */
  datatype FmeaType = DFMEA | PFMEA | FMEA_MSR {
    function Label(): string {
      match this
      case DFMEA => "DFMEA"
      case PFMEA => "PFMEA"
      case FMEA_MSR => "FMEA-MSR"
    }
  }

  /** The Action Priority tiers, with the one-letter code each enum member carries. */
  datatype ActionPriority = LOW | MEDIUM | HIGH {
    function Code(): string {
      match this
      case LOW => "L"
      case MEDIUM => "M"
      case HIGH => "H"
    }
  }

  /** The five kind tags of a structure element. */
  datatype NodeKind = System | Subsystem | Component | ProcessStep | WorkElement {
    function Label(): string {
      match this
      case System => "system"
      case Subsystem => "subsystem"
      case Component => "component"
      case ProcessStep => "process_step"
      case WorkElement => "work_element"
    }
  }

  /** The lifecycle states of an optimisation action. */
  datatype ActionStatus = Open | Completed | Discarded {
    function Label(): string {
      match this
      case Open => "Open"
      case Completed => "Completed"
      case Discarded => "Discarded"
    }
  }

  /** Project metadata; it is edited by a form and never by the tree operations. */
  datatype FmeaProject = FmeaProject(
    id: string, name: string, number: string, analysisType: FmeaType,
    manager: string, teamMembers: string, date: string, scope: string)

  /** An optimisation action with its re-rating triple and the priority derived from it. */
  datatype FmeaAction = FmeaAction(
    id: string, causeId: string, description: string, responsible: string,
    targetDate: string, status: ActionStatus, takenAction: string, completionDate: string,
    newSeverity: int, newOccurrence: int, newDetection: int,
    newActionPriority: ActionPriority)

  /** A failure cause with its scores, the priority derived from them, and its actions. */
  datatype FmeaCause = FmeaCause(
    id: string, failureId: string, description: string,
    preventionControl: string, detectionControl: string,
    severity: int, occurrence: int, detection: int,
    actionPriority: ActionPriority, actions: seq<FmeaAction>)

  /** A failure mode with its effects (free text) and its causes. */
  datatype FmeaFailure = FmeaFailure(
    id: string, functionId: string, failureMode: string,
    failureEffects: seq<string>, failureCauses: seq<FmeaCause>)

  /** A function of a structure element with its requirements and failure modes. */
  datatype FmeaFunction = FmeaFunction(
    id: string, nodeId: string, description: string, requirements: string,
    failures: seq<FmeaFailure>)

  /** A structure element; `parentId` is `None` for top-level elements. */
  datatype StructureNode = StructureNode(
    id: string, parentId: Option<string>, name: string, kind: NodeKind,
    children: seq<StructureNode>, functions: seq<FmeaFunction>)

  /** The one-letter codes of the priorities are pairwise distinct. */
  lemma PriorityCodesDistinct(p: ActionPriority, q: ActionPriority)
    ensures p.Code() == q.Code() <==> p == q
    ensures |p.Code()| == 1
  {
  }
}

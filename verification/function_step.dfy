/** Step 3, function analysis: replacing the function list of one structure
    element, and the list edits applied to the selected element's functions. */
module FunctionStep {
  import opened FmeaTypes
  import opened Tree
  import opened SeqUtil

  /** Replacing the function list, as an edit of one element. */
  function WithFunctions(fs: seq<FmeaFunction>): StructureNode -> StructureNode {
    (n: StructureNode) => n.(functions := fs)
  }

  /** `updateNodeFunctions`: the element with the id gets the given function
      list; ids and subtrees are kept, looking the id up afterwards finds the
      element with the new list, and applying it twice is applying it once. */
  function UpdateNodeFunctions(nodes: seq<StructureNode>, nodeId: string, fs: seq<FmeaFunction>): (r: seq<StructureNode>)
    ensures |r| == |nodes|
    ensures IdSet(r) == IdSet(nodes)
    ensures FindNode(r, nodeId) == (match FindNode(nodes, nodeId) case None => None case Some(n) => Some(n.(functions := fs)))
    ensures RebuildAt(r, nodeId, WithFunctions(fs)) == r
  {
    RebuildAtIds(nodes, nodeId, WithFunctions(fs));
    RebuildAtFind(nodes, nodeId, WithFunctions(fs));
    RebuildAtIdempotent(nodes, nodeId, WithFunctions(fs));
    RebuildAt(nodes, nodeId, WithFunctions(fs))
  }

  /** An absent id changes nothing. */
  lemma UpdateNodeFunctionsAbsent(nodes: seq<StructureNode>, nodeId: string, fs: seq<FmeaFunction>)
    requires nodeId !in IdSet(nodes)
    ensures UpdateNodeFunctions(nodes, nodeId, fs) == nodes
  {
    RebuildAtAbsent(nodes, nodeId, WithFunctions(fs));
  }

  /** With no nested occurrence of the id, only the matched elements' function
      lists change: every element keeps its id, name, kind and parent id, and
      every other element keeps its functions too. */
  lemma UpdateNodeFunctionsOnlyTarget(nodes: seq<StructureNode>, nodeId: string, fs: seq<FmeaFunction>)
    requires NoNested(nodes, nodeId)
    ensures EditedOnly(AllNodes(nodes), AllNodes(UpdateNodeFunctions(nodes, nodeId, fs)), nodeId, WithFunctions(fs))
  {
    RebuildAtEditsOnly(nodes, nodeId, WithFunctions(fs));
  }

  /** `selectedNode`: nothing when no (truthy) id is selected, else the lookup. */
  function SelectedNode(structure: seq<StructureNode>, selectedNodeId: Option<string>): (r: Option<StructureNode>)
    ensures r.Some? <==> Truthy(selectedNodeId) && selectedNodeId.value in IdSet(structure)
    ensures r.Some? ==> r.value.id == selectedNodeId.value && r.value in AllNodes(structure)
  {
    if Truthy(selectedNodeId) then FindNode(structure, selectedNodeId.value) else None
  }

  /** The two text fields of a function that the form edits. */
  datatype FunctionField = Description | Requirements

  /** A function with one text field set. */
  function SetFunctionField(f: FmeaFunction, field: FunctionField, value: string): FmeaFunction {
    match field
    case Description => f.(description := value)
    case Requirements => f.(requirements := value)
  }

  /** Reading a text field of a function. */
  function FunctionFieldOf(f: FmeaFunction, field: FunctionField): string {
    match field
    case Description => f.description
    case Requirements => f.requirements
  }

  /** The function list after `addFunction`: one new empty function of the
      element appended, the existing ones kept in order. */
  function AppendNewFunction(fs: seq<FmeaFunction>, newId: string, nodeId: string): (r: seq<FmeaFunction>)
    ensures |r| == |fs| + 1 && r[..|fs|] == fs
    ensures r[|fs|].id == newId && r[|fs|].nodeId == nodeId
    ensures r[|fs|].description == "" && r[|fs|].requirements == "" && r[|fs|].failures == []
  {
    fs + [FmeaFunction(newId, nodeId, "", "", [])]
  }

  /** The function list after `removeFunction`: exactly the functions with
      another id remain; with them go the failures, causes and actions of the
      removed ones. */
  function RemoveFunction(fs: seq<FmeaFunction>, funcId: string): (r: seq<FmeaFunction>)
    ensures |r| <= |fs|
    ensures forall f :: f in r <==> f in fs && f.id != funcId
  {
    Filter(fs, (f: FmeaFunction) => f.id != funcId)
  }

  /** Removal keeps the survivors' relative order: it distributes over
      concatenation. */
  lemma RemoveFunctionConcat(a: seq<FmeaFunction>, b: seq<FmeaFunction>, funcId: string)
    ensures RemoveFunction(a + b, funcId) == RemoveFunction(a, funcId) + RemoveFunction(b, funcId)
  {
    FilterConcat(a, b, (f: FmeaFunction) => f.id != funcId);
  }

  /** Removing an id no function carries changes nothing. */
  lemma RemoveFunctionAbsent(fs: seq<FmeaFunction>, funcId: string)
    requires forall f :: f in fs ==> f.id != funcId
    ensures RemoveFunction(fs, funcId) == fs
  {
    FilterKeepsAll(fs, (f: FmeaFunction) => f.id != funcId);
  }

  /** The function list after `updateFunctionField`: the functions with the
      id get the field set, every other field and every other function is
      kept. */
  function UpdateFunctionField(fs: seq<FmeaFunction>, funcId: string, field: FunctionField, value: string): (r: seq<FmeaFunction>)
    ensures |r| == |fs|
    ensures forall i :: 0 <= i < |fs| ==>
      r[i].id == fs[i].id && r[i].nodeId == fs[i].nodeId && r[i].failures == fs[i].failures
    ensures forall i :: 0 <= i < |fs| && fs[i].id == funcId ==>
      FunctionFieldOf(r[i], field) == value
      && (field == Description ==> r[i].requirements == fs[i].requirements)
      && (field == Requirements ==> r[i].description == fs[i].description)
    ensures forall i :: 0 <= i < |fs| && fs[i].id != funcId ==> r[i] == fs[i]
  {
    seq(|fs|, i requires 0 <= i < |fs| => if fs[i].id == funcId then SetFunctionField(fs[i], field, value) else fs[i])
  }

  /** Setting the same field twice keeps only the second value. */
  lemma UpdateFunctionFieldOverwrites(fs: seq<FmeaFunction>, funcId: string, field: FunctionField, v1: string, v2: string)
    ensures UpdateFunctionField(UpdateFunctionField(fs, funcId, field, v1), funcId, field, v2)
         == UpdateFunctionField(fs, funcId, field, v2)
  {
    var a := UpdateFunctionField(UpdateFunctionField(fs, funcId, field, v1), funcId, field, v2);
    var b := UpdateFunctionField(fs, funcId, field, v2);
    forall i | 0 <= i < |fs| ensures a[i] == b[i] {
    }
  }

  /** The three list edits the step applies to the selected element. */
  datatype FunctionEdit =
    | AddFunction(newId: string)
    | RemoveFunctionById(funcId: string)
    | UpdateField(funcId: string, field: FunctionField, value: string)

  /** The selected element's new function list under an edit. */
  function EditedFunctions(node: StructureNode, edit: FunctionEdit): seq<FmeaFunction> {
    match edit
    case AddFunction(newId) => AppendNewFunction(node.functions, newId, node.id)
    case RemoveFunctionById(funcId) => RemoveFunction(node.functions, funcId)
    case UpdateField(funcId, field, value) => UpdateFunctionField(node.functions, funcId, field, value)
  }

  /** `addFunction`, `removeFunction` and `updateFunctionField`: without a
      selected element nothing changes; otherwise the selected element's list
      is edited and written back with `updateNodeFunctions`. */
  function EditSelectedFunctions(structure: seq<StructureNode>, selectedNodeId: Option<string>, edit: FunctionEdit): (r: seq<StructureNode>)
    ensures SelectedNode(structure, selectedNodeId).None? ==> r == structure
    ensures SelectedNode(structure, selectedNodeId).Some? ==>
      var sel := SelectedNode(structure, selectedNodeId).value;
      IdSet(r) == IdSet(structure)
      && FindNode(r, sel.id) == Some(sel.(functions := EditedFunctions(sel, edit)))
  {
    match SelectedNode(structure, selectedNodeId)
    case None => structure
    case Some(node) => UpdateNodeFunctions(structure, node.id, EditedFunctions(node, edit))
  }
}

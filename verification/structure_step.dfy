/** Step 2, structure analysis: adding, deleting and renaming elements of
    the structure tree, and merging a list of suggested element names into
    it. Fresh ids are parameters. */
module StructureStep {
  import opened FmeaTypes
  import opened Tree
  import opened SeqUtil

  /** The element `addNode` creates: named "New Item", a component when it
      has a (truthy) parent id and a system otherwise, with no content. */
  function NewNode(newId: string, parentId: Option<string>): StructureNode {
    StructureNode(newId, parentId, "New Item", if Truthy(parentId) then Component else System, [], [])
  }

  /** `addNodeRecursive`: append `newNode` to the children of each element
      whose id is `targetId`, without looking below it; elements without
      children are returned as they are. */
  function AddNodeRecursive(nodes: seq<StructureNode>, targetId: string, newNode: StructureNode): (r: seq<StructureNode>)
    ensures |r| == |nodes|
    ensures forall i :: 0 <= i < |nodes| ==> r[i].id == nodes[i].id
  {
    seq(|nodes|, i requires 0 <= i < |nodes| =>
      if nodes[i].id == targetId then nodes[i].(children := nodes[i].children + [newNode])
      else if |nodes[i].children| > 0 then nodes[i].(children := AddNodeRecursive(nodes[i].children, targetId, newNode))
      else nodes[i])
  }

  /** Appending a child, as an edit of one element. */
  function AppendChild(child: StructureNode): StructureNode -> StructureNode {
    (n: StructureNode) => n.(children := n.children + [child])
  }

  /** The childless shortcut changes nothing: `addNodeRecursive` is the
      generic rebuild at `targetId` with the edit "append a child". */
  lemma {:induction false} AddNodeRecursiveIsRebuild(nodes: seq<StructureNode>, targetId: string, newNode: StructureNode)
    ensures AddNodeRecursive(nodes, targetId, newNode) == RebuildAt(nodes, targetId, AppendChild(newNode))
  {
    var r := AddNodeRecursive(nodes, targetId, newNode);
    var q := RebuildAt(nodes, targetId, AppendChild(newNode));
    forall i | 0 <= i < |nodes| ensures r[i] == q[i] {
      AddNodeRecursiveIsRebuild(nodes[i].children, targetId, newNode);
      if nodes[i].id != targetId && |nodes[i].children| == 0 {
        assert RebuildAt(nodes[i].children, targetId, AppendChild(newNode)) == [];
      }
    }
  }

  /** An absent target leaves the forest as it was. */
  lemma AddNodeRecursiveAbsent(nodes: seq<StructureNode>, targetId: string, newNode: StructureNode)
    requires targetId !in IdSet(nodes)
    ensures AddNodeRecursive(nodes, targetId, newNode) == nodes
  {
    AddNodeRecursiveIsRebuild(nodes, targetId, newNode);
    RebuildAtAbsent(nodes, targetId, AppendChild(newNode));
  }

  /** The (first) target element ends up with its old children, in order,
      followed by the new element, and nothing below it is touched. */
  lemma AddNodeRecursiveTarget(nodes: seq<StructureNode>, targetId: string, newNode: StructureNode)
    requires targetId in IdSet(nodes)
    ensures var old_ := FindNode(nodes, targetId).value;
            FindNode(AddNodeRecursive(nodes, targetId, newNode), targetId)
              == Some(old_.(children := old_.children + [newNode]))
  {
    AddNodeRecursiveIsRebuild(nodes, targetId, newNode);
    RebuildAtFind(nodes, targetId, AppendChild(newNode));
  }

  /** With the target present, the forest gains exactly the ids of the new
      element's subtree. */
  lemma {:induction false} AddNodeRecursiveIds(nodes: seq<StructureNode>, targetId: string, newNode: StructureNode)
    requires targetId in IdSet(nodes)
    ensures IdSet(AddNodeRecursive(nodes, targetId, newNode)) == IdSet(nodes) + IdSet([newNode])
  {
    var r := AddNodeRecursive(nodes, targetId, newNode);
    var n := nodes[0];
    assert r[1..] == AddNodeRecursive(nodes[1..], targetId, newNode);
    if n.id == targetId {
      IdSetConcat(n.children, [newNode]);
    } else if targetId in IdSet(n.children) {
      AddNodeRecursiveIds(n.children, targetId, newNode);
    } else {
      AddNodeRecursiveAbsent(n.children, targetId, newNode);
    }
    if targetId in IdSet(nodes[1..]) {
      AddNodeRecursiveIds(nodes[1..], targetId, newNode);
    } else {
      AddNodeRecursiveAbsent(nodes[1..], targetId, newNode);
    }
  }

  /** With the target present and a fresh id, looking the new id up finds
      the new element. */
  lemma {:induction false} AddNodeRecursiveFindsNew(nodes: seq<StructureNode>, targetId: string, newNode: StructureNode)
    requires targetId in IdSet(nodes)
    requires newNode.id !in IdSet(nodes)
    ensures FindNode(AddNodeRecursive(nodes, targetId, newNode), newNode.id) == Some(newNode)
  {
    var r := AddNodeRecursive(nodes, targetId, newNode);
    var n := nodes[0];
    assert r[1..] == AddNodeRecursive(nodes[1..], targetId, newNode);
    if n.id == targetId {
      FindNodeConcat(n.children, [newNode], newNode.id);
    } else if targetId in IdSet(n.children) {
      AddNodeRecursiveFindsNew(n.children, targetId, newNode);
    } else {
      AddNodeRecursiveAbsent(n.children, targetId, newNode);
      AddNodeRecursiveFindsNew(nodes[1..], targetId, newNode);
    }
  }

  /** `addNode`: a falsy parent id appends a new top-level system element;
      otherwise the new component goes under the parent. */
  function AddNode(data: seq<StructureNode>, parentId: Option<string>, newId: string): (r: seq<StructureNode>)
    ensures !Truthy(parentId) ==>
      |r| == |data| + 1 && r[..|data|] == data && r[|data|] == NewNode(newId, parentId)
      && r[|data|].kind == System && r[|data|].name == "New Item"
    ensures Truthy(parentId) ==> |r| == |data|
  {
    if !Truthy(parentId) then data + [NewNode(newId, parentId)]
    else AddNodeRecursive(data, parentId.value, NewNode(newId, parentId))
  }

  /** Adding under a present parent with a fresh id: the new element is a
      component named "New Item" whose parent id is that parent, it can be
      found, and it is the parent's last child. */
  lemma AddNodeUnderParent(data: seq<StructureNode>, parentId: string, newId: string)
    requires parentId != "" && parentId in IdSet(data)
    requires newId !in IdSet(data)
    ensures var r := AddNode(data, Some(parentId), newId);
            var p := FindNode(data, parentId).value;
            && FindNode(r, newId) == Some(StructureNode(newId, Some(parentId), "New Item", Component, [], []))
            && FindNode(r, parentId) == Some(p.(children := p.children + [FindNode(r, newId).value]))
            && IdSet(r) == IdSet(data) + {newId}
  {
    var nn := NewNode(newId, Some(parentId));
    AddNodeRecursiveFindsNew(data, parentId, nn);
    AddNodeRecursiveTarget(data, parentId, nn);
    AddNodeRecursiveIds(data, parentId, nn);
  }

  /** `deleteRecursive`: drop the elements whose id is `id` at this level,
      then do the same inside the children of the survivors. */
  function DeleteRecursive(nodes: seq<StructureNode>, id: string): (r: seq<StructureNode>)
    ensures id !in IdSet(r)
    ensures IdSet(r) <= IdSet(nodes)
    ensures |AllNodes(r)| <= |AllNodes(nodes)|
  {
    if nodes == [] then []
    else
      var head := if nodes[0].id == id then [] else [nodes[0].(children := DeleteRecursive(nodes[0].children, id))];
      var tail := DeleteRecursive(nodes[1..], id);
      AllNodesConcat(head, tail);
      IdSetConcat(head, tail);
      head + tail
  }

  /** The top level of the result is the filter of the input followed by the
      recursive deletion inside each survivor: the two stages of the source. */
  lemma {:induction false} DeleteRecursiveFilterThenMap(nodes: seq<StructureNode>, id: string)
    ensures var kept := Filter(nodes, (n: StructureNode) => n.id != id);
            var r := DeleteRecursive(nodes, id);
            |r| == |kept| &&
            forall i :: 0 <= i < |r| ==> r[i] == kept[i].(children := DeleteRecursive(kept[i].children, id))
  {
    if nodes != [] {
      DeleteRecursiveFilterThenMap(nodes[1..], id);
    }
  }

  /** The elements the deletion keeps, in pre-order: every element except
      those carrying the id and everything below them. */
  function Survivors(nodes: seq<StructureNode>, id: string): seq<StructureNode> {
    if nodes == [] then []
    else (if nodes[0].id == id then [] else [nodes[0]] + Survivors(nodes[0].children, id))
         + Survivors(nodes[1..], id)
  }

  /** Each element without its subtree, in order. */
  function Outline(ns: seq<StructureNode>): (r: seq<StructureNode>)
    ensures |r| == |ns|
  {
    seq(|ns|, i requires 0 <= i < |ns| => Strip(ns[i]))
  }

  lemma OutlineConcat(a: seq<StructureNode>, b: seq<StructureNode>)
    ensures Outline(a + b) == Outline(a) + Outline(b)
  {
  }

  /** Walking the result visits exactly the survivors, in their original
      order, each with its id, name, kind, parent id and functions as before:
      the removed elements are exactly the matches and their subtrees. */
  lemma {:induction false} DeleteRecursiveKeepsSurvivors(nodes: seq<StructureNode>, id: string)
    ensures Outline(AllNodes(DeleteRecursive(nodes, id))) == Outline(Survivors(nodes, id))
  {
    if nodes != [] {
      var n := nodes[0];
      var head := if n.id == id then [] else [n.(children := DeleteRecursive(n.children, id))];
      var tail := DeleteRecursive(nodes[1..], id);
      AllNodesConcat(head, tail);
      DeleteRecursiveKeepsSurvivors(nodes[1..], id);
      var sHead := if n.id == id then [] else [n] + Survivors(n.children, id);
      OutlineConcat(AllNodes(head), AllNodes(tail));
      OutlineConcat(sHead, Survivors(nodes[1..], id));
      if n.id != id {
        DeleteRecursiveKeepsSurvivors(n.children, id);
        var h := head[0];
        assert AllNodes(head) == [h] + AllNodes(h.children) + AllNodes([]);
        assert AllNodes(head) == [h] + AllNodes(h.children);
        OutlineConcat([h], AllNodes(h.children));
        OutlineConcat([n], Survivors(n.children, id));
        assert Outline([h]) == Outline([n]);
      }
    }
  }

  /** Nothing is removed when no element carries the id. */
  lemma {:induction false} DeleteRecursiveAbsent(nodes: seq<StructureNode>, id: string)
    requires id !in IdSet(nodes)
    ensures DeleteRecursive(nodes, id) == nodes
  {
    if nodes != [] {
      DeleteRecursiveAbsent(nodes[0].children, id);
      DeleteRecursiveAbsent(nodes[1..], id);
      assert nodes == [nodes[0]] + nodes[1..];
    }
  }

  /** When some element carries the id, the element count strictly drops. */
  lemma {:induction false} DeleteRecursiveShrinks(nodes: seq<StructureNode>, id: string)
    requires id in IdSet(nodes)
    ensures |AllNodes(DeleteRecursive(nodes, id))| < |AllNodes(nodes)|
  {
    var n := nodes[0];
    var head := if n.id == id then [] else [n.(children := DeleteRecursive(n.children, id))];
    var tail := DeleteRecursive(nodes[1..], id);
    AllNodesConcat(head, tail);
    if n.id != id {
      var h := head[0];
      assert AllNodes(head) == [h] + AllNodes(h.children) + AllNodes([]);
      if id in IdSet(n.children) {
        DeleteRecursiveShrinks(n.children, id);
      } else {
        DeleteRecursiveShrinks(nodes[1..], id);
      }
    }
  }

  /** Renaming, as an edit of one element. */
  function Renamed(name: string): StructureNode -> StructureNode {
    (n: StructureNode) => n.(name := name)
  }

  /** `updateNodeName`: the element with the id takes the new name; its id,
      children and functions stay, the set of ids is unchanged, an absent id
      changes nothing, and renaming twice is renaming once. */
  function UpdateNodeName(nodes: seq<StructureNode>, id: string, name: string): (r: seq<StructureNode>)
    ensures |r| == |nodes|
    ensures IdSet(r) == IdSet(nodes)
    ensures FindNode(r, id) == (match FindNode(nodes, id) case None => None case Some(n) => Some(n.(name := name)))
    ensures RebuildAt(r, id, Renamed(name)) == r
  {
    RebuildAtIds(nodes, id, Renamed(name));
    RebuildAtFind(nodes, id, Renamed(name));
    RebuildAtIdempotent(nodes, id, Renamed(name));
    RebuildAt(nodes, id, Renamed(name))
  }

  /** Renaming an absent id changes nothing. */
  lemma UpdateNodeNameAbsent(nodes: seq<StructureNode>, id: string, name: string)
    requires id !in IdSet(nodes)
    ensures UpdateNodeName(nodes, id, name) == nodes
  {
    RebuildAtAbsent(nodes, id, Renamed(name));
  }

  /** With no element carrying the id below another one (for instance with
      unique ids), the matched elements change their name and nothing else,
      and every other element keeps all of its own fields. */
  lemma UpdateNodeNameOnlyTarget(nodes: seq<StructureNode>, id: string, name: string)
    requires NoNested(nodes, id)
    ensures EditedOnly(AllNodes(nodes), AllNodes(UpdateNodeName(nodes, id, name)), id, Renamed(name))
  {
    RebuildAtEditsOnly(nodes, id, Renamed(name));
  }

  /** A suggested element: a component named by the suggestion, with no content. */
  function SuggestedChild(id: string, parentId: Option<string>, name: string): StructureNode {
    StructureNode(id, parentId, name, Component, [], [])
  }

  /** The suggested elements, one per suggestion and in suggestion order. */
  function SuggestedChildren(ids: seq<string>, parentId: Option<string>, names: seq<string>): (r: seq<StructureNode>)
    requires |ids| == |names|
    ensures |r| == |names|
    ensures forall i :: 0 <= i < |r| ==> r[i] == SuggestedChild(ids[i], parentId, names[i])
  {
    if names == [] then []
    else [SuggestedChild(ids[0], parentId, names[0])] + SuggestedChildren(ids[1..], parentId, names[1..])
  }

  /** The suggestion merge of `handleAISuggest`, as written. `suggestions`
      is `None` when the service returned no array or failed. An empty
      scope or no suggestions change nothing. On an empty tree a root named
      after the scope is built with one component per suggestion, those
      components having no parent id; otherwise the components are appended
      to the first root's children with that root as their parent. */
  function MergeStructureSuggestions(data: seq<StructureNode>, scope: string, suggestions: Option<seq<string>>,
                                     rootId: string, childIds: seq<string>): (r: seq<StructureNode>)
    requires suggestions.Some? ==> |childIds| == |suggestions.value|
    ensures scope == "" || suggestions.None? ==> r == data
    ensures scope != "" && suggestions.Some? && data == [] ==>
      |r| == 1 && r[0].id == rootId && r[0].name == scope && r[0].kind == System
      && r[0].parentId == None && r[0].functions == []
      && |r[0].children| == |suggestions.value|
      && forall i :: 0 <= i < |r[0].children| ==>
           r[0].children[i] == SuggestedChild(childIds[i], None, suggestions.value[i])
    ensures scope != "" && suggestions.Some? && data != [] ==>
      |r| == |data| && r[1..] == data[1..] && Strip(r[0]) == Strip(data[0])
      && |r[0].children| == |data[0].children| + |suggestions.value|
      && r[0].children[..|data[0].children|] == data[0].children
      && forall i :: 0 <= i < |suggestions.value| ==>
           r[0].children[|data[0].children| + i] == SuggestedChild(childIds[i], Some(data[0].id), suggestions.value[i])
  {
    if scope == "" || suggestions.None? then data
    else if data == [] then
      [StructureNode(rootId, None, if scope != "" then scope else "Root System", System,
                     SuggestedChildren(childIds, None, suggestions.value), [])]
    else
      var root := data[0];
      [root.(children := root.children + SuggestedChildren(childIds, Some(root.id), suggestions.value))] + data[1..]
  }

  /** Every element's parent id is the id of the element it sits under, and
      the top-level elements have none. */
  predicate ParentLinked(nodes: seq<StructureNode>, parentId: Option<string>) {
    nodes == [] ||
    (nodes[0].parentId == parentId && ParentLinked(nodes[0].children, Some(nodes[0].id))
     && ParentLinked(nodes[1..], parentId))
  }

  lemma {:induction false} ParentLinkedConcat(a: seq<StructureNode>, b: seq<StructureNode>, parentId: Option<string>)
    ensures ParentLinked(a, parentId) && ParentLinked(b, parentId) ==> ParentLinked(a + b, parentId)
  {
    if a == [] {
      assert a + b == b;
    } else {
      assert (a + b)[0] == a[0];
      assert (a + b)[1..] == a[1..] + b;
      ParentLinkedConcat(a[1..], b, parentId);
    }
  }

  lemma {:induction false} SuggestedChildrenLinked(ids: seq<string>, parentId: Option<string>, names: seq<string>)
    requires |ids| == |names|
    ensures ParentLinked(SuggestedChildren(ids, parentId, names), parentId)
  {
    if names != [] {
      SuggestedChildrenLinked(ids[1..], parentId, names[1..]);
    }
  }

  /** As written, the empty-tree branch breaks the parent links: one
      suggestion under a fresh root leaves the new child without the root
      as its parent. */
  lemma EmptyTreeMergeLeavesChildUnlinked()
    ensures var r := MergeStructureSuggestions([], "Pump", Some(["Motor"]), "root", ["c1"]);
            !ParentLinked(r, None) && r[0].children[0].parentId == None
  {
    var r := MergeStructureSuggestions([], "Pump", Some(["Motor"]), "root", ["c1"]);
    assert r[0].children[0] == SuggestedChild("c1", None, "Motor");
  }

  /** The merge with the children of a new root linked to that root. */
  function MergeStructureSuggestionsLinked(data: seq<StructureNode>, scope: string, suggestions: Option<seq<string>>,
                                           rootId: string, childIds: seq<string>): (r: seq<StructureNode>)
    requires suggestions.Some? ==> |childIds| == |suggestions.value|
    ensures ParentLinked(data, None) ==> ParentLinked(r, None)
    ensures scope == "" || suggestions.None? ==> r == data
    ensures scope != "" && suggestions.Some? && data == [] ==>
      |r| == 1 && ParentLinked(r, None)
      && r[0] == MergeStructureSuggestions(data, scope, suggestions, rootId, childIds)[0]
                  .(children := SuggestedChildren(childIds, Some(rootId), suggestions.value))
    ensures data != [] ==> r == MergeStructureSuggestions(data, scope, suggestions, rootId, childIds)
  {
    if scope == "" || suggestions.None? then data
    else if data == [] then
      SuggestedChildrenLinked(childIds, Some(rootId), suggestions.value);
      [StructureNode(rootId, None, scope, System, SuggestedChildren(childIds, Some(rootId), suggestions.value), [])]
    else
      var root := data[0];
      var added := SuggestedChildren(childIds, Some(root.id), suggestions.value);
      SuggestedChildrenLinked(childIds, Some(root.id), suggestions.value);
      ParentLinkedConcat(root.children, added, Some(root.id));
      [root.(children := root.children + added)] + data[1..]
  }
}

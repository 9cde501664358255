/** The structure tree and the one recursion pattern every step uses on it:
    walk the forest, find the element with a given id, and rebuild the
    forest with that element replaced. */
module Tree {
  import opened FmeaTypes

  /** Every element of the forest in pre-order: an element, then its
      subtree, then its following siblings. */
  function AllNodes(nodes: seq<StructureNode>): (r: seq<StructureNode>)
    ensures |r| >= |nodes|
  {
    if nodes == [] then []
    else [nodes[0]] + AllNodes(nodes[0].children) + AllNodes(nodes[1..])
  }

  /** The ids of every element of the forest, at any depth. */
  function IdSet(nodes: seq<StructureNode>): set<string> {
    if nodes == [] then {}
    else {nodes[0].id} + IdSet(nodes[0].children) + IdSet(nodes[1..])
  }

  lemma {:induction false} AllNodesConcat(a: seq<StructureNode>, b: seq<StructureNode>)
    ensures AllNodes(a + b) == AllNodes(a) + AllNodes(b)
  {
    if a == [] {
      assert a + b == b;
    } else {
      assert (a + b)[1..] == a[1..] + b;
      AllNodesConcat(a[1..], b);
    }
  }

  lemma {:induction false} IdSetConcat(a: seq<StructureNode>, b: seq<StructureNode>)
    ensures IdSet(a + b) == IdSet(a) + IdSet(b)
  {
    if a == [] {
      assert a + b == b;
    } else {
      assert (a + b)[1..] == a[1..] + b;
      IdSetConcat(a[1..], b);
    }
  }

  /** IdSet is exactly the set of ids met by the pre-order walk. */
  lemma {:induction false} IdSetIsPreorderIds(nodes: seq<StructureNode>)
    ensures forall n :: n in AllNodes(nodes) ==> n.id in IdSet(nodes)
    ensures forall id :: id in IdSet(nodes) ==> exists n :: n in AllNodes(nodes) && n.id == id
  {
    if nodes != [] {
      IdSetIsPreorderIds(nodes[0].children);
      IdSetIsPreorderIds(nodes[1..]);
      var all := AllNodes(nodes);
      assert all == [nodes[0]] + AllNodes(nodes[0].children) + AllNodes(nodes[1..]);
      forall id | id in IdSet(nodes)
        ensures exists n :: n in all && n.id == id
      {
        if id == nodes[0].id {
          assert nodes[0] in all;
        } else if id in IdSet(nodes[0].children) {
          var n :| n in AllNodes(nodes[0].children) && n.id == id;
          assert n in all;
        } else {
          var n :| n in AllNodes(nodes[1..]) && n.id == id;
          assert n in all;
        }
      }
    }
  }

  /** The first element, in pre-order, whose id is `id` (`findNode`). */
  function FindNode(nodes: seq<StructureNode>, id: string): (r: Option<StructureNode>)
    ensures r.None? <==> id !in IdSet(nodes)
    ensures r.Some? ==> r.value.id == id && r.value in AllNodes(nodes)
  {
    if nodes == [] then None
    else if nodes[0].id == id then Some(nodes[0])
    else match FindNode(nodes[0].children, id)
      case Some(found) => Some(found)
      case None => FindNode(nodes[1..], id)
  }

  /** Searching a concatenation searches the first part, then the second. */
  lemma {:induction false} FindNodeConcat(a: seq<StructureNode>, b: seq<StructureNode>, id: string)
    ensures FindNode(a + b, id) == (if FindNode(a, id).Some? then FindNode(a, id) else FindNode(b, id))
  {
    if a == [] {
      assert a + b == b;
    } else {
      assert (a + b)[0] == a[0];
      assert (a + b)[1..] == a[1..] + b;
      FindNodeConcat(a[1..], b, id);
    }
  }

  /** An id that no element of the pre-order walk carries is not in IdSet. */
  lemma AbsentFromWalk(nodes: seq<StructureNode>, id: string)
    requires forall j :: 0 <= j < |AllNodes(nodes)| ==> AllNodes(nodes)[j].id != id
    ensures id !in IdSet(nodes)
  {
    IdSetIsPreorderIds(nodes);
  }

  /** FindNode returns the pre-order-first element carrying the id. */
  lemma {:induction false} FindNodeIsFirst(nodes: seq<StructureNode>, id: string, k: nat)
    requires k < |AllNodes(nodes)| && AllNodes(nodes)[k].id == id
    requires forall j :: 0 <= j < k ==> AllNodes(nodes)[j].id != id
    ensures FindNode(nodes, id) == Some(AllNodes(nodes)[k])
  {
    var all := AllNodes(nodes);
    var sub := AllNodes(nodes[0].children);
    var rest := AllNodes(nodes[1..]);
    assert all == [nodes[0]] + sub + rest;
    if k > 0 {
      assert all[0].id != id;
      if k - 1 < |sub| {
        assert forall j :: 0 <= j < k - 1 ==> sub[j] == all[j + 1];
        FindNodeIsFirst(nodes[0].children, id, k - 1);
      } else {
        assert forall j :: 0 <= j < |sub| ==> sub[j] == all[j + 1];
        AbsentFromWalk(nodes[0].children, id);
        assert forall j :: 0 <= j < k - 1 - |sub| ==> rest[j] == all[j + 1 + |sub|];
        FindNodeIsFirst(nodes[1..], id, k - 1 - |sub|);
      }
    }
  }

  /** No element carrying `id` lies inside the subtree of another element
      carrying `id`. Implied by unique ids; it is all the "only the addressed
      element changes" results need. */
  predicate NoNested(nodes: seq<StructureNode>, id: string) {
    nodes == [] ||
    ((if nodes[0].id == id then id !in IdSet(nodes[0].children)
      else NoNested(nodes[0].children, id))
     && NoNested(nodes[1..], id))
  }

  /** Every element of the forest carries a different id: an element's id
      occurs nowhere else, and its subtree and its following siblings share
      no id. */
  predicate UniqueIds(nodes: seq<StructureNode>) {
    nodes == [] ||
    (nodes[0].id !in IdSet(nodes[0].children) + IdSet(nodes[1..])
     && IdSet(nodes[0].children) !! IdSet(nodes[1..])
     && UniqueIds(nodes[0].children) && UniqueIds(nodes[1..]))
  }

  lemma {:induction false} UniqueIdsImpliesNoNested(nodes: seq<StructureNode>, id: string)
    requires UniqueIds(nodes)
    ensures NoNested(nodes, id)
  {
    if nodes != [] {
      if nodes[0].id != id {
        UniqueIdsImpliesNoNested(nodes[0].children, id);
      }
      UniqueIdsImpliesNoNested(nodes[1..], id);
    }
  }

  /** The element itself without its subtree: what an edit at one element
      may change is compared on this view. */
  function Strip(n: StructureNode): StructureNode {
    n.(children := [])
  }

  /** Rebuild the forest, replacing the first element on every path whose id
      is `id` by `f` of it and descending into all other elements' children
      (the shape of `updateNodeName`, `updateNodeFunctions` and
      `handleScoreChange`). */
  function RebuildAt(nodes: seq<StructureNode>, id: string, f: StructureNode -> StructureNode): (r: seq<StructureNode>)
    ensures |r| == |nodes|
  {
    seq(|nodes|, i requires 0 <= i < |nodes| =>
      if nodes[i].id == id then f(nodes[i])
      else nodes[i].(children := RebuildAt(nodes[i].children, id, f)))
  }

  /** The edit keeps the element's id. */
  ghost predicate KeepsId(f: StructureNode -> StructureNode) {
    forall n :: f(n).id == n.id
  }

  /** The edit keeps the element's id and its subtree. */
  ghost predicate KeepsIdAndChildren(f: StructureNode -> StructureNode) {
    forall n :: f(n).id == n.id && f(n).children == n.children
  }

  lemma RebuildAtCons(nodes: seq<StructureNode>, id: string, f: StructureNode -> StructureNode)
    requires nodes != []
    ensures RebuildAt(nodes, id, f)
         == [if nodes[0].id == id then f(nodes[0])
             else nodes[0].(children := RebuildAt(nodes[0].children, id, f))]
            + RebuildAt(nodes[1..], id, f)
  {
  }

  /** Nothing changes when no element carries the id. */
  lemma {:induction false} RebuildAtAbsent(nodes: seq<StructureNode>, id: string, f: StructureNode -> StructureNode)
    requires id !in IdSet(nodes)
    ensures RebuildAt(nodes, id, f) == nodes
  {
    if nodes != [] {
      RebuildAtCons(nodes, id, f);
      RebuildAtAbsent(nodes[0].children, id, f);
      RebuildAtAbsent(nodes[1..], id, f);
      assert nodes == [nodes[0]] + nodes[1..];
    }
  }

  /** The set of ids is preserved. */
  lemma {:induction false} RebuildAtIds(nodes: seq<StructureNode>, id: string, f: StructureNode -> StructureNode)
    requires KeepsIdAndChildren(f)
    ensures IdSet(RebuildAt(nodes, id, f)) == IdSet(nodes)
  {
    if nodes != [] {
      var r := RebuildAt(nodes, id, f);
      RebuildAtCons(nodes, id, f);
      RebuildAtIds(nodes[0].children, id, f);
      RebuildAtIds(nodes[1..], id, f);
      assert r[1..] == RebuildAt(nodes[1..], id, f);
    }
  }

  /** Looking the id up afterwards finds the edited element. */
  lemma {:induction false} RebuildAtFind(nodes: seq<StructureNode>, id: string, f: StructureNode -> StructureNode)
    requires KeepsId(f)
    ensures FindNode(RebuildAt(nodes, id, f), id)
         == (match FindNode(nodes, id) case None => None case Some(n) => Some(f(n)))
  {
    if nodes != [] {
      var r := RebuildAt(nodes, id, f);
      RebuildAtCons(nodes, id, f);
      assert r[1..] == RebuildAt(nodes[1..], id, f);
      if nodes[0].id != id {
        RebuildAtFind(nodes[0].children, id, f);
        RebuildAtFind(nodes[1..], id, f);
      }
    }
  }

  /** Applying an idempotent edit twice is applying it once. */
  lemma {:induction false} RebuildAtIdempotent(nodes: seq<StructureNode>, id: string, f: StructureNode -> StructureNode)
    requires KeepsId(f)
    requires forall n :: f(f(n)) == f(n)
    ensures RebuildAt(RebuildAt(nodes, id, f), id, f) == RebuildAt(nodes, id, f)
  {
    if nodes != [] {
      var r := RebuildAt(nodes, id, f);
      RebuildAtCons(nodes, id, f);
      RebuildAtCons(r, id, f);
      assert r[1..] == RebuildAt(nodes[1..], id, f);
      RebuildAtIdempotent(nodes[0].children, id, f);
      RebuildAtIdempotent(nodes[1..], id, f);
    }
  }

  /** `after` is `before` with exactly the elements carrying `id` edited by
      `f`, compared element by element in pre-order, subtrees aside. */
  ghost predicate EditedOnly(before: seq<StructureNode>, after: seq<StructureNode>, id: string, f: StructureNode -> StructureNode) {
    |after| == |before| &&
    forall k :: 0 <= k < |before| ==>
      Strip(after[k]) == (if before[k].id == id then Strip(f(before[k])) else Strip(before[k]))
  }

  lemma EditedOnlyConcat(b1: seq<StructureNode>, a1: seq<StructureNode>, b2: seq<StructureNode>, a2: seq<StructureNode>,
                         id: string, f: StructureNode -> StructureNode)
    requires EditedOnly(b1, a1, id, f) && EditedOnly(b2, a2, id, f)
    ensures EditedOnly(b1 + b2, a1 + a2, id, f)
  {
    forall k | 0 <= k < |b1 + b2|
      ensures Strip((a1 + a2)[k]) == (if (b1 + b2)[k].id == id then Strip(f((b1 + b2)[k])) else Strip((b1 + b2)[k]))
    {
      if k >= |b1| {
        assert (a1 + a2)[k] == a2[k - |b1|];
        assert (b1 + b2)[k] == b2[k - |b1|];
      }
    }
  }

  lemma {:induction false} EditedOnlyNoOp(nodes: seq<StructureNode>, id: string, f: StructureNode -> StructureNode)
    requires id !in IdSet(nodes)
    ensures EditedOnly(AllNodes(nodes), AllNodes(nodes), id, f)
  {
    IdSetIsPreorderIds(nodes);
    var all := AllNodes(nodes);
    forall k | 0 <= k < |all| ensures all[k].id != id {
      assert all[k] in all;
    }
  }

  /** With no nested occurrences of the id, the rebuild edits exactly the
      elements carrying the id and leaves every other element as it was. */
  lemma {:induction false} RebuildAtEditsOnly(nodes: seq<StructureNode>, id: string, f: StructureNode -> StructureNode)
    requires KeepsIdAndChildren(f)
    requires NoNested(nodes, id)
    ensures EditedOnly(AllNodes(nodes), AllNodes(RebuildAt(nodes, id, f)), id, f)
  {
    if nodes != [] {
      var r := RebuildAt(nodes, id, f);
      var n := nodes[0];
      RebuildAtCons(nodes, id, f);
      assert r[1..] == RebuildAt(nodes[1..], id, f);
      assert AllNodes(r) == [r[0]] + AllNodes(r[0].children) + AllNodes(r[1..]);
      assert AllNodes(nodes) == [n] + AllNodes(n.children) + AllNodes(nodes[1..]);
      assert EditedOnly([n], [r[0]], id, f);
      if n.id == id {
        assert r[0].children == n.children;
        EditedOnlyNoOp(n.children, id, f);
      } else {
        RebuildAtEditsOnly(n.children, id, f);
      }
      RebuildAtEditsOnly(nodes[1..], id, f);
      EditedOnlyConcat([n], [r[0]], AllNodes(n.children), AllNodes(r[0].children), id, f);
      EditedOnlyConcat([n] + AllNodes(n.children), [r[0]] + AllNodes(r[0].children),
                       AllNodes(nodes[1..]), AllNodes(r[1..]), id, f);
    }
  }

  /** `q` holds of every element of the forest, at any depth. */
  predicate Everywhere(nodes: seq<StructureNode>, q: StructureNode -> bool) {
    nodes == [] || (q(nodes[0]) && Everywhere(nodes[0].children, q) && Everywhere(nodes[1..], q))
  }

  /** A rebuild whose edit keeps the subtree and preserves `q` (a property
      of the element itself, not of its subtree) preserves `q` everywhere, whatever the ids (nested occurrences included). */
  lemma {:induction false} RebuildAtEverywhere(nodes: seq<StructureNode>, id: string, f: StructureNode -> StructureNode,
                                               q: StructureNode -> bool)
    requires KeepsIdAndChildren(f)
    requires forall n :: q(n) ==> q(f(n))
    requires forall n :: q(n) == q(Strip(n))
    ensures Everywhere(nodes, q) ==> Everywhere(RebuildAt(nodes, id, f), q)
  {
    if nodes != [] {
      var r := RebuildAt(nodes, id, f);
      RebuildAtCons(nodes, id, f);
      assert r[1..] == RebuildAt(nodes[1..], id, f);
      RebuildAtEverywhere(nodes[0].children, id, f, q);
      RebuildAtEverywhere(nodes[1..], id, f, q);
      assert Strip(r[0]) == Strip(nodes[0]) || r[0] == f(nodes[0]);
    }
  }
}

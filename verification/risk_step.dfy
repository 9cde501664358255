/** Step 5, risk analysis: the worksheet view with one row per cause, the
    rebuild that edits the one cause addressed by (element, function,
    failure, cause) ids, and the score edits with the priority recomputed.
    The addressed rebuild and the walk over all causes are shared with the
    optimisation and result steps. */
module RiskStep {
  import opened FmeaTypes
  import opened ActionPriorityRule
  import opened Tree
  import opened SeqUtil

  // ---------------------------------------------------------------------
  // The cause rows
  // ---------------------------------------------------------------------

  /** What a row shows of the element, function and failure above a cause. */
  datatype RowContext = RowContext(
    nodeId: string, nodeName: string,
    funcId: string, funcDescription: string, funcRequirements: string,
    failId: string, failureMode: string, failureEffects: seq<string>)

  /** One worksheet row: a cause in its context. */
  datatype CauseRow = CauseRow(ctx: RowContext, cause: FmeaCause)

  /** The ids that address a cause. */
  datatype CauseAddress = CauseAddress(nodeId: string, funcId: string, failId: string, causeId: string)

  function AddressOf(r: CauseRow): CauseAddress {
    CauseAddress(r.ctx.nodeId, r.ctx.funcId, r.ctx.failId, r.cause.id)
  }

  function ContextOf(nodeId: string, nodeName: string, func: FmeaFunction, fail: FmeaFailure): RowContext {
    RowContext(nodeId, nodeName, func.id, func.description, func.requirements, fail.id, fail.failureMode, fail.failureEffects)
  }

  /** The rows of one failure's causes, in order. */
  function CausesRows(ctx: RowContext, cs: seq<FmeaCause>): (r: seq<CauseRow>)
    ensures |r| == |cs|
    ensures forall i :: 0 <= i < |r| ==> r[i] == CauseRow(ctx, cs[i])
  {
    seq(|cs|, i requires 0 <= i < |cs| => CauseRow(ctx, cs[i]))
  }

  /** The rows of a function's failures, failure by failure. */
  function FailuresRows(nodeId: string, nodeName: string, func: FmeaFunction, fails: seq<FmeaFailure>): (r: seq<CauseRow>)
    ensures forall row :: row in r ==> row.ctx.nodeId == nodeId && row.ctx.funcId == func.id
  {
    if fails == [] then []
    else CausesRows(ContextOf(nodeId, nodeName, func, fails[0]), fails[0].failureCauses)
         + FailuresRows(nodeId, nodeName, func, fails[1..])
  }

  /** The rows of an element's functions, function by function. */
  function FunctionsRows(nodeId: string, nodeName: string, fs: seq<FmeaFunction>): (r: seq<CauseRow>)
    ensures forall row :: row in r ==> row.ctx.nodeId == nodeId
  {
    if fs == [] then []
    else FailuresRows(nodeId, nodeName, fs[0], fs[0].failures) + FunctionsRows(nodeId, nodeName, fs[1..])
  }

  /** The rows of an element's own causes. */
  function NodeRows(n: StructureNode): seq<CauseRow> {
    FunctionsRows(n.id, n.name, n.functions)
  }

  /** The worksheet of `renderRows`: one row per cause, walking the tree in
      pre-order and, inside an element, its functions, their failures and
      their causes in order. A failure without causes contributes no row. */
  function CauseRows(nodes: seq<StructureNode>): seq<CauseRow> {
    if nodes == [] then []
    else NodeRows(nodes[0]) + CauseRows(nodes[0].children) + CauseRows(nodes[1..])
  }

  /** Every row belongs to an element of the tree. */
  lemma {:induction false} CauseRowsNodeIds(nodes: seq<StructureNode>)
    ensures forall row :: row in CauseRows(nodes) ==> row.ctx.nodeId in IdSet(nodes)
  {
    if nodes != [] {
      CauseRowsNodeIds(nodes[0].children);
      CauseRowsNodeIds(nodes[1..]);
    }
  }

  lemma {:induction false} CauseRowsConcat(a: seq<StructureNode>, b: seq<StructureNode>)
    ensures CauseRows(a + b) == CauseRows(a) + CauseRows(b)
  {
    if a == [] {
      assert a + b == b;
    } else {
      assert (a + b)[0] == a[0];
      assert (a + b)[1..] == a[1..] + b;
      CauseRowsConcat(a[1..], b);
    }
  }

  /** The number of causes of an element's own functions. */
  function OwnCauseCount(fs: seq<FmeaFunction>): nat {
    if fs == [] then 0 else FailureCauseCount(fs[0].failures) + OwnCauseCount(fs[1..])
  }

  function FailureCauseCount(fails: seq<FmeaFailure>): nat {
    if fails == [] then 0 else |fails[0].failureCauses| + FailureCauseCount(fails[1..])
  }

  /** The number of causes in the whole tree. */
  function CauseCount(nodes: seq<StructureNode>): nat {
    if nodes == [] then 0
    else OwnCauseCount(nodes[0].functions) + CauseCount(nodes[0].children) + CauseCount(nodes[1..])
  }

  lemma {:induction false} FailuresRowsLength(nodeId: string, nodeName: string, func: FmeaFunction, fails: seq<FmeaFailure>)
    ensures |FailuresRows(nodeId, nodeName, func, fails)| == FailureCauseCount(fails)
  {
    if fails != [] {
      FailuresRowsLength(nodeId, nodeName, func, fails[1..]);
    }
  }

  lemma {:induction false} FunctionsRowsLength(nodeId: string, nodeName: string, fs: seq<FmeaFunction>)
    ensures |FunctionsRows(nodeId, nodeName, fs)| == OwnCauseCount(fs)
  {
    if fs != [] {
      FailuresRowsLength(nodeId, nodeName, fs[0], fs[0].failures);
      FunctionsRowsLength(nodeId, nodeName, fs[1..]);
    }
  }

  /** Exactly one row per cause. */
  lemma {:induction false} CauseRowsLength(nodes: seq<StructureNode>)
    ensures |CauseRows(nodes)| == CauseCount(nodes)
  {
    if nodes != [] {
      FunctionsRowsLength(nodes[0].id, nodes[0].name, nodes[0].functions);
      CauseRowsLength(nodes[0].children);
      CauseRowsLength(nodes[1..]);
    }
  }

  // ---------------------------------------------------------------------
  // The walk that builds a view from the cause rows
  // ---------------------------------------------------------------------

  /** The view a render loop builds: what `emit` makes of each row, in row order. */
  function EmitAll<T>(rows: seq<CauseRow>, emit: CauseRow -> seq<T>): seq<T> {
    if rows == [] then [] else emit(rows[0]) + EmitAll(rows[1..], emit)
  }

  lemma {:induction false} EmitAllConcat<T>(a: seq<CauseRow>, b: seq<CauseRow>, emit: CauseRow -> seq<T>)
    ensures EmitAll(a + b, emit) == EmitAll(a, emit) + EmitAll(b, emit)
  {
    if a == [] {
      assert a + b == b;
    } else {
      assert (a + b)[1..] == a[1..] + b;
      EmitAllConcat(a[1..], b, emit);
    }
  }

  /** The innermost loop: push what `emit` makes of each cause of a failure. */
  method PushCauses<T>(ctx: RowContext, cs: seq<FmeaCause>, rows0: seq<T>, emit: CauseRow -> seq<T>) returns (rows: seq<T>)
    ensures rows == rows0 + EmitAll(CausesRows(ctx, cs), emit)
  {
    rows := rows0;
    var k := 0;
    while k < |cs|
      invariant 0 <= k <= |cs|
      invariant rows == rows0 + EmitAll(CausesRows(ctx, cs[..k]), emit)
    {
      rows := rows + emit(CauseRow(ctx, cs[k]));
      assert CausesRows(ctx, cs[..k + 1]) == CausesRows(ctx, cs[..k]) + [CauseRow(ctx, cs[k])];
      EmitAllConcat(CausesRows(ctx, cs[..k]), [CauseRow(ctx, cs[k])], emit);
      k := k + 1;
    }
    assert cs[..k] == cs;
  }

  lemma FailuresRowsSnoc(nodeId: string, nodeName: string, func: FmeaFunction, fails: seq<FmeaFailure>, k: nat)
    requires k < |fails|
    ensures FailuresRows(nodeId, nodeName, func, fails[..k + 1])
         == FailuresRows(nodeId, nodeName, func, fails[..k])
            + CausesRows(ContextOf(nodeId, nodeName, func, fails[k]), fails[k].failureCauses)
  {
    FailuresRowsConcat(nodeId, nodeName, func, fails[..k], [fails[k]]);
    assert fails[..k + 1] == fails[..k] + [fails[k]];
  }

  lemma {:induction false} FailuresRowsConcat(nodeId: string, nodeName: string, func: FmeaFunction, a: seq<FmeaFailure>, b: seq<FmeaFailure>)
    ensures FailuresRows(nodeId, nodeName, func, a + b) == FailuresRows(nodeId, nodeName, func, a) + FailuresRows(nodeId, nodeName, func, b)
  {
    if a == [] {
      assert a + b == b;
    } else {
      assert (a + b)[0] == a[0];
      assert (a + b)[1..] == a[1..] + b;
      FailuresRowsConcat(nodeId, nodeName, func, a[1..], b);
    }
  }

  lemma {:induction false} FunctionsRowsConcat(nodeId: string, nodeName: string, a: seq<FmeaFunction>, b: seq<FmeaFunction>)
    ensures FunctionsRows(nodeId, nodeName, a + b) == FunctionsRows(nodeId, nodeName, a) + FunctionsRows(nodeId, nodeName, b)
  {
    if a == [] {
      assert a + b == b;
    } else {
      assert (a + b)[0] == a[0];
      assert (a + b)[1..] == a[1..] + b;
      FunctionsRowsConcat(nodeId, nodeName, a[1..], b);
    }
  }

  /** The loop over a function's failures; a failure without causes is
      skipped before its (empty) loop over causes. */
  method PushFailures<T>(nodeId: string, nodeName: string, func: FmeaFunction, rows0: seq<T>, emit: CauseRow -> seq<T>)
    returns (rows: seq<T>)
    ensures rows == rows0 + EmitAll(FailuresRows(nodeId, nodeName, func, func.failures), emit)
  {
    rows := rows0;
    var fails := func.failures;
    var k := 0;
    while k < |fails|
      invariant 0 <= k <= |fails|
      invariant rows == rows0 + EmitAll(FailuresRows(nodeId, nodeName, func, fails[..k]), emit)
    {
      var fail := fails[k];
      FailuresRowsSnoc(nodeId, nodeName, func, fails, k);
      var ctx := ContextOf(nodeId, nodeName, func, fail);
      EmitAllConcat(FailuresRows(nodeId, nodeName, func, fails[..k]), CausesRows(ctx, fail.failureCauses), emit);
      if |fail.failureCauses| != 0 {
        rows := PushCauses(ctx, fail.failureCauses, rows, emit);
      }
      k := k + 1;
    }
    assert fails[..k] == fails;
  }

  lemma EmitFunctionsStep<T>(nodeId: string, nodeName: string, fs: seq<FmeaFunction>, j: nat, emit: CauseRow -> seq<T>)
    requires j < |fs|
    ensures EmitAll(FunctionsRows(nodeId, nodeName, fs[..j + 1]), emit)
         == EmitAll(FunctionsRows(nodeId, nodeName, fs[..j]), emit)
            + EmitAll(FailuresRows(nodeId, nodeName, fs[j], fs[j].failures), emit)
  {
    var head := FunctionsRows(nodeId, nodeName, fs[..j]);
    var last := FailuresRows(nodeId, nodeName, fs[j], fs[j].failures);
    FunctionsRowsConcat(nodeId, nodeName, fs[..j], [fs[j]]);
    assert fs[..j + 1] == fs[..j] + [fs[j]];
    assert [fs[j]][1..] == [];
    assert FunctionsRows(nodeId, nodeName, [fs[j]]) == last + [];
    assert last + [] == last;
    assert FunctionsRows(nodeId, nodeName, fs[..j + 1]) == head + last;
    EmitAllConcat(head, last, emit);
  }

  /** The loop over an element's functions. */
  method PushFunctions<T>(node: StructureNode, rows0: seq<T>, emit: CauseRow -> seq<T>) returns (rows: seq<T>)
    ensures rows == rows0 + EmitAll(NodeRows(node), emit)
  {
    rows := rows0;
    var fs := node.functions;
    var j := 0;
    while j < |fs|
      invariant 0 <= j <= |fs|
      invariant rows == rows0 + EmitAll(FunctionsRows(node.id, node.name, fs[..j]), emit)
    {
      EmitFunctionsStep(node.id, node.name, fs, j, emit);
      rows := PushFailures(node.id, node.name, fs[j], rows, emit);
      j := j + 1;
    }
    assert fs[..j] == fs;
  }

  lemma EmitNodesStep<T>(nodes: seq<StructureNode>, i: nat, emit: CauseRow -> seq<T>)
    requires i < |nodes|
    ensures EmitAll(CauseRows(nodes[..i + 1]), emit)
         == EmitAll(CauseRows(nodes[..i]), emit) + EmitAll(NodeRows(nodes[i]), emit)
            + EmitAll(CauseRows(nodes[i].children), emit)
  {
    var node := nodes[i];
    var head := CauseRows(nodes[..i]);
    var own := NodeRows(node);
    var sub := CauseRows(node.children);
    CauseRowsConcat(nodes[..i], [node]);
    assert nodes[..i + 1] == nodes[..i] + [node];
    assert [node][1..] == [];
    assert CauseRows([node]) == own + sub + [];
    assert own + sub + [] == own + sub;
    assert CauseRows(nodes[..i + 1]) == head + (own + sub);
    EmitAllConcat(head, own + sub, emit);
    EmitAllConcat(own, sub, emit);
  }

  /** `traverse`: for each element, its own causes, then (recursively) its
      children's, pushed onto the same list. */
  method WalkCauses<T>(nodes: seq<StructureNode>, rows0: seq<T>, emit: CauseRow -> seq<T>) returns (rows: seq<T>)
    ensures rows == rows0 + EmitAll(CauseRows(nodes), emit)
    decreases nodes
  {
    rows := rows0;
    var i := 0;
    while i < |nodes|
      invariant 0 <= i <= |nodes|
      invariant rows == rows0 + EmitAll(CauseRows(nodes[..i]), emit)
    {
      var node := nodes[i];
      ghost var done := EmitAll(CauseRows(nodes[..i]), emit);
      ghost var own := EmitAll(NodeRows(node), emit);
      ghost var sub := EmitAll(CauseRows(node.children), emit);
      EmitNodesStep(nodes, i, emit);
      rows := PushFunctions(node, rows, emit);
      assert rows == rows0 + done + own;
      rows := WalkCauses(node.children, rows, emit);
      assert rows == rows0 + done + own + sub;
      assert EmitAll(CauseRows(nodes[..i + 1]), emit) == done + own + sub;
      i := i + 1;
    }
    assert nodes[..i] == nodes;
  }

  /** Emitting each row as itself. */
  function RowItself(): CauseRow -> seq<CauseRow> {
    (r: CauseRow) => [r]
  }

  lemma {:induction false} EmitItself(rows: seq<CauseRow>)
    ensures EmitAll(rows, RowItself()) == rows
  {
    if rows != [] {
      EmitItself(rows[1..]);
    }
  }

  /** Step 5's `renderRows`, one row per cause of the tree, in the order of
      the worksheet. */
  method RenderRiskRows(structure: seq<StructureNode>) returns (rows: seq<CauseRow>)
    ensures rows == CauseRows(structure)
    ensures |rows| == CauseCount(structure)
  {
    rows := WalkCauses(structure, [], RowItself());
    EmitItself(CauseRows(structure));
    CauseRowsLength(structure);
  }

  // ---------------------------------------------------------------------
  // Editing the addressed cause
  // ---------------------------------------------------------------------

  /** The causes with the id edited by `g`. */
  function EditCausesIn(cs: seq<FmeaCause>, causeId: string, g: FmeaCause -> FmeaCause): (r: seq<FmeaCause>)
    ensures |r| == |cs|
  {
    seq(|cs|, i requires 0 <= i < |cs| => if cs[i].id == causeId then g(cs[i]) else cs[i])
  }

  /** Inside the failures with the id, the addressed causes edited. */
  function EditFailuresIn(fails: seq<FmeaFailure>, failId: string, causeId: string, g: FmeaCause -> FmeaCause): (r: seq<FmeaFailure>)
    ensures |r| == |fails|
  {
    seq(|fails|, i requires 0 <= i < |fails| =>
      if fails[i].id == failId then fails[i].(failureCauses := EditCausesIn(fails[i].failureCauses, causeId, g))
      else fails[i])
  }

  /** Inside the functions with the id, the addressed failures edited. */
  function EditFunctionsIn(fs: seq<FmeaFunction>, addr: CauseAddress, g: FmeaCause -> FmeaCause): (r: seq<FmeaFunction>)
    ensures |r| == |fs|
  {
    seq(|fs|, i requires 0 <= i < |fs| =>
      if fs[i].id == addr.funcId then fs[i].(failures := EditFailuresIn(fs[i].failures, addr.failId, addr.causeId, g))
      else fs[i])
  }

  /** The edit applied to a matched element: only its function list changes. */
  function AtCause(addr: CauseAddress, g: FmeaCause -> FmeaCause): StructureNode -> StructureNode {
    (n: StructureNode) => n.(functions := EditFunctionsIn(n.functions, addr, g))
  }

  /** The `updateRecursive` of `handleScoreChange`, `addAction`,
      `deleteAction` and `updateAction`: at an element with the address's
      element id, edit the addressed cause and do not descend; elsewhere
      descend into the children. */
  function UpdateCauseAt(nodes: seq<StructureNode>, addr: CauseAddress, g: FmeaCause -> FmeaCause): (r: seq<StructureNode>)
    ensures |r| == |nodes|
    ensures IdSet(r) == IdSet(nodes)
  {
    RebuildAtIds(nodes, addr.nodeId, AtCause(addr, g));
    RebuildAt(nodes, addr.nodeId, AtCause(addr, g))
  }

  /** The matched element keeps its subtree as it was: the edit does not
      reach elements below it, even ones carrying the same id. */
  lemma UpdateCauseAtStopsAtMatch(nodes: seq<StructureNode>, addr: CauseAddress, g: FmeaCause -> FmeaCause)
    requires addr.nodeId in IdSet(nodes)
    ensures var n := FindNode(nodes, addr.nodeId).value;
            FindNode(UpdateCauseAt(nodes, addr, g), addr.nodeId)
              == Some(n.(functions := EditFunctionsIn(n.functions, addr, g)))
  {
    RebuildAtFind(nodes, addr.nodeId, AtCause(addr, g));
  }

  /** The rows with the addressed cause edited. */
  function EditRows(rows: seq<CauseRow>, addr: CauseAddress, g: FmeaCause -> FmeaCause): (r: seq<CauseRow>)
    ensures |r| == |rows|
  {
    seq(|rows|, k requires 0 <= k < |rows| =>
      if AddressOf(rows[k]) == addr then rows[k].(cause := g(rows[k].cause)) else rows[k])
  }

  lemma EditRowsConcat(a: seq<CauseRow>, b: seq<CauseRow>, addr: CauseAddress, g: FmeaCause -> FmeaCause)
    ensures EditRows(a + b, addr, g) == EditRows(a, addr, g) + EditRows(b, addr, g)
  {
  }

  lemma EditRowsNoMatch(rows: seq<CauseRow>, addr: CauseAddress, g: FmeaCause -> FmeaCause)
    requires forall row :: row in rows ==> AddressOf(row) != addr
    ensures EditRows(rows, addr, g) == rows
  {
    forall k | 0 <= k < |rows| ensures EditRows(rows, addr, g)[k] == rows[k] {
      assert rows[k] in rows;
    }
  }

  /** The edit keeps a cause's id. */
  ghost predicate KeepsCauseId(g: FmeaCause -> FmeaCause) {
    forall c :: g(c).id == c.id
  }

  lemma {:induction false} FailuresRowsEdit(nodeId: string, nodeName: string, func: FmeaFunction, fails: seq<FmeaFailure>,
                                            addr: CauseAddress, g: FmeaCause -> FmeaCause)
    requires KeepsCauseId(g)
    requires nodeId == addr.nodeId && func.id == addr.funcId
    ensures FailuresRows(nodeId, nodeName, func, EditFailuresIn(fails, addr.failId, addr.causeId, g))
         == EditRows(FailuresRows(nodeId, nodeName, func, fails), addr, g)
  {
    if fails != [] {
      var edited := EditFailuresIn(fails, addr.failId, addr.causeId, g);
      assert edited[1..] == EditFailuresIn(fails[1..], addr.failId, addr.causeId, g);
      FailuresRowsEdit(nodeId, nodeName, func, fails[1..], addr, g);
      var ctx := ContextOf(nodeId, nodeName, func, fails[0]);
      assert ContextOf(nodeId, nodeName, func, edited[0]) == ctx;
      EditRowsConcat(CausesRows(ctx, fails[0].failureCauses), FailuresRows(nodeId, nodeName, func, fails[1..]), addr, g);
      if fails[0].id != addr.failId {
        EditRowsNoMatch(CausesRows(ctx, fails[0].failureCauses), addr, g);
      }
    }
  }

  lemma {:induction false} FunctionsRowsEdit(nodeId: string, nodeName: string, fs: seq<FmeaFunction>,
                                             addr: CauseAddress, g: FmeaCause -> FmeaCause)
    requires KeepsCauseId(g)
    requires nodeId == addr.nodeId
    ensures FunctionsRows(nodeId, nodeName, EditFunctionsIn(fs, addr, g))
         == EditRows(FunctionsRows(nodeId, nodeName, fs), addr, g)
  {
    if fs != [] {
      var edited := EditFunctionsIn(fs, addr, g);
      assert edited[1..] == EditFunctionsIn(fs[1..], addr, g);
      FunctionsRowsEdit(nodeId, nodeName, fs[1..], addr, g);
      EditRowsConcat(FailuresRows(nodeId, nodeName, fs[0], fs[0].failures), FunctionsRows(nodeId, nodeName, fs[1..]), addr, g);
      if fs[0].id == addr.funcId {
        FailuresRowsEdit(nodeId, nodeName, fs[0], fs[0].failures, addr, g);
        assert FailuresRows(nodeId, nodeName, edited[0], edited[0].failures)
            == FailuresRows(nodeId, nodeName, fs[0], edited[0].failures) by {
          FailuresRowsSameContext(nodeId, nodeName, fs[0], edited[0], edited[0].failures);
        }
      } else {
        EditRowsNoMatch(FailuresRows(nodeId, nodeName, fs[0], fs[0].failures), addr, g);
      }
    }
  }

  /** Rows only read a function's id and texts, not its failure list. */
  lemma {:induction false} FailuresRowsSameContext(nodeId: string, nodeName: string, f1: FmeaFunction, f2: FmeaFunction, fails: seq<FmeaFailure>)
    requires f1.id == f2.id && f1.description == f2.description && f1.requirements == f2.requirements
    ensures FailuresRows(nodeId, nodeName, f1, fails) == FailuresRows(nodeId, nodeName, f2, fails)
  {
    if fails != [] {
      FailuresRowsSameContext(nodeId, nodeName, f1, f2, fails[1..]);
    }
  }

  /** With no element carrying the element id below another one (for
      instance with unique ids), the rows after the edit are the rows before
      with exactly the addressed cause edited: sibling causes, failures,
      functions and elements are unchanged. */
  lemma {:induction false} UpdateCauseAtRows(nodes: seq<StructureNode>, addr: CauseAddress, g: FmeaCause -> FmeaCause)
    requires KeepsCauseId(g)
    requires NoNested(nodes, addr.nodeId)
    ensures CauseRows(UpdateCauseAt(nodes, addr, g)) == EditRows(CauseRows(nodes), addr, g)
  {
    if nodes != [] {
      var f := AtCause(addr, g);
      var r := UpdateCauseAt(nodes, addr, g);
      var n := nodes[0];
      RebuildAtCons(nodes, addr.nodeId, f);
      assert r[1..] == UpdateCauseAt(nodes[1..], addr, g);
      UpdateCauseAtRows(nodes[1..], addr, g);
      EditRowsConcat(NodeRows(n) + CauseRows(n.children), CauseRows(nodes[1..]), addr, g);
      EditRowsConcat(NodeRows(n), CauseRows(n.children), addr, g);
      if n.id == addr.nodeId {
        FunctionsRowsEdit(n.id, n.name, n.functions, addr, g);
        CauseRowsNodeIds(n.children);
        EditRowsNoMatch(CauseRows(n.children), addr, g);
      } else {
        EditRowsNoMatch(NodeRows(n), addr, g);
        UpdateCauseAtRows(n.children, addr, g);
      }
    }
  }

  /** An address that no row carries changes nothing. */
  lemma {:induction false} UpdateCauseAtAbsent(nodes: seq<StructureNode>, addr: CauseAddress, g: FmeaCause -> FmeaCause)
    requires forall row :: row in CauseRows(nodes) ==> AddressOf(row) != addr
    ensures UpdateCauseAt(nodes, addr, g) == nodes
  {
    if nodes != [] {
      var f := AtCause(addr, g);
      var n := nodes[0];
      RebuildAtCons(nodes, addr.nodeId, f);
      assert UpdateCauseAt(nodes, addr, g)[1..] == UpdateCauseAt(nodes[1..], addr, g);
      UpdateCauseAtAbsent(nodes[1..], addr, g);
      if n.id == addr.nodeId {
        FunctionsUntouched(n.id, n.name, n.functions, addr, g);
      } else {
        UpdateCauseAtAbsent(n.children, addr, g);
      }
      assert nodes == [n] + nodes[1..];
    }
  }

  lemma {:induction false} FunctionsUntouched(nodeId: string, nodeName: string, fs: seq<FmeaFunction>, addr: CauseAddress, g: FmeaCause -> FmeaCause)
    requires forall row :: row in FunctionsRows(nodeId, nodeName, fs) ==> AddressOf(row) != addr
    requires nodeId == addr.nodeId
    ensures EditFunctionsIn(fs, addr, g) == fs
  {
    if fs != [] {
      FunctionsUntouched(nodeId, nodeName, fs[1..], addr, g);
      assert EditFunctionsIn(fs, addr, g)[1..] == EditFunctionsIn(fs[1..], addr, g);
      if fs[0].id == addr.funcId {
        FailuresUntouched(nodeId, nodeName, fs[0], fs[0].failures, addr, g);
      }
      assert fs == [fs[0]] + fs[1..];
    }
  }

  lemma {:induction false} FailuresUntouched(nodeId: string, nodeName: string, func: FmeaFunction, fails: seq<FmeaFailure>,
                                             addr: CauseAddress, g: FmeaCause -> FmeaCause)
    requires forall row :: row in FailuresRows(nodeId, nodeName, func, fails) ==> AddressOf(row) != addr
    requires nodeId == addr.nodeId && func.id == addr.funcId
    ensures EditFailuresIn(fails, addr.failId, addr.causeId, g) == fails
  {
    if fails != [] {
      FailuresUntouched(nodeId, nodeName, func, fails[1..], addr, g);
      assert EditFailuresIn(fails, addr.failId, addr.causeId, g)[1..] == EditFailuresIn(fails[1..], addr.failId, addr.causeId, g);
      if fails[0].id == addr.failId {
        var cs := fails[0].failureCauses;
        var rows := CausesRows(ContextOf(nodeId, nodeName, func, fails[0]), cs);
        forall i | 0 <= i < |cs| ensures cs[i].id != addr.causeId {
          assert rows[i] in FailuresRows(nodeId, nodeName, func, fails);
        }
        assert EditCausesIn(cs, addr.causeId, g) == cs;
      }
      assert fails == [fails[0]] + fails[1..];
    }
  }

  // ---------------------------------------------------------------------
  // Invariants over all causes
  // ---------------------------------------------------------------------

  predicate CausesAll(cs: seq<FmeaCause>, p: FmeaCause -> bool) {
    forall i :: 0 <= i < |cs| ==> p(cs[i])
  }

  predicate FailuresAll(fails: seq<FmeaFailure>, p: FmeaCause -> bool) {
    forall i :: 0 <= i < |fails| ==> CausesAll(fails[i].failureCauses, p)
  }

  predicate FunctionsAll(fs: seq<FmeaFunction>, p: FmeaCause -> bool) {
    forall i :: 0 <= i < |fs| ==> FailuresAll(fs[i].failures, p)
  }

  /** `p` holds of every cause of an element's own functions. */
  function OwnCausesAll(p: FmeaCause -> bool): StructureNode -> bool {
    (n: StructureNode) => FunctionsAll(n.functions, p)
  }

  /** `p` holds of every cause in the tree. */
  predicate TreeCausesAll(nodes: seq<StructureNode>, p: FmeaCause -> bool) {
    Everywhere(nodes, OwnCausesAll(p))
  }

  /** An edit that keeps `p` of a cause keeps `p` of every cause in the
      tree, for any address and whatever the ids. */
  lemma UpdateCauseAtPreserves(nodes: seq<StructureNode>, addr: CauseAddress, g: FmeaCause -> FmeaCause, p: FmeaCause -> bool)
    requires forall c :: p(c) ==> p(g(c))
    ensures TreeCausesAll(nodes, p) ==> TreeCausesAll(UpdateCauseAt(nodes, addr, g), p)
  {
    var f := AtCause(addr, g);
    forall n | OwnCausesAll(p)(n) ensures OwnCausesAll(p)(f(n)) {
      var fs := EditFunctionsIn(n.functions, addr, g);
      forall i | 0 <= i < |fs| ensures FailuresAll(fs[i].failures, p) {
        if n.functions[i].id == addr.funcId {
          var fails := EditFailuresIn(n.functions[i].failures, addr.failId, addr.causeId, g);
          forall j | 0 <= j < |fails| ensures CausesAll(fails[j].failureCauses, p) {
            assert CausesAll(n.functions[i].failures[j].failureCauses, p);
          }
        }
      }
    }
    RebuildAtEverywhere(nodes, addr.nodeId, f, OwnCausesAll(p));
  }

  /** The derived-field invariant of a cause and of each of its actions. */
  predicate Consistent(c: FmeaCause) {
    CauseRated(c) && forall i :: 0 <= i < |c.actions| ==> ActionRated(c.actions[i])
  }

  // ---------------------------------------------------------------------
  // Score edits
  // ---------------------------------------------------------------------

  /** The fields of a cause the risk worksheet edits, with the new value. */
  datatype CauseEdit =
    | SetSeverity(s: int)
    | SetOccurrence(o: int)
    | SetDetection(d: int)
    | SetPreventionControl(text: string)
    | SetDetectionControl(text: string)
  {
    predicate IsScore() { SetSeverity? || SetOccurrence? || SetDetection? }
  }

  /** `{ ...cause, [field]: value }`, with the priority recomputed from the
      updated triple when a score changes. */
  function ApplyCauseEdit(c: FmeaCause, e: CauseEdit): (r: FmeaCause)
    ensures r.id == c.id && r.failureId == c.failureId && r.description == c.description && r.actions == c.actions
    ensures r.severity == (if e.SetSeverity? then e.s else c.severity)
    ensures r.occurrence == (if e.SetOccurrence? then e.o else c.occurrence)
    ensures r.detection == (if e.SetDetection? then e.d else c.detection)
    ensures r.preventionControl == (if e.SetPreventionControl? then e.text else c.preventionControl)
    ensures r.detectionControl == (if e.SetDetectionControl? then e.text else c.detectionControl)
    ensures e.IsScore() ==> CauseRated(r)
    ensures !e.IsScore() ==> r.actionPriority == c.actionPriority
  {
    match e
    case SetSeverity(s) => c.(severity := s, actionPriority := CalculateAP(s, c.occurrence, c.detection))
    case SetOccurrence(o) => c.(occurrence := o, actionPriority := CalculateAP(c.severity, o, c.detection))
    case SetDetection(d) => c.(detection := d, actionPriority := CalculateAP(c.severity, c.occurrence, d))
    case SetPreventionControl(text) => c.(preventionControl := text)
    case SetDetectionControl(text) => c.(detectionControl := text)
  }

  function CauseEditOp(e: CauseEdit): FmeaCause -> FmeaCause {
    (c: FmeaCause) => ApplyCauseEdit(c, e)
  }

  /** `handleScoreChange`. */
  function HandleScoreChange(structure: seq<StructureNode>, addr: CauseAddress, e: CauseEdit): seq<StructureNode> {
    UpdateCauseAt(structure, addr, CauseEditOp(e))
  }

  /** A score edit keeps every cause consistent: the edited cause gets the
      priority of its new triple and its actions are untouched; a text edit
      changes neither scores nor priority. */
  lemma HandleScoreChangeKeepsConsistent(structure: seq<StructureNode>, addr: CauseAddress, e: CauseEdit)
    ensures TreeCausesAll(structure, Consistent) ==> TreeCausesAll(HandleScoreChange(structure, addr, e), Consistent)
  {
    UpdateCauseAtPreserves(structure, addr, CauseEditOp(e), Consistent);
  }

  /** Seen through the worksheet: exactly the addressed row changes, and it
      changes by the edit. */
  lemma HandleScoreChangeRows(structure: seq<StructureNode>, addr: CauseAddress, e: CauseEdit)
    requires NoNested(structure, addr.nodeId)
    ensures CauseRows(HandleScoreChange(structure, addr, e)) == EditRows(CauseRows(structure), addr, CauseEditOp(e))
  {
    UpdateCauseAtRows(structure, addr, CauseEditOp(e));
  }

  /** An address no row carries leaves the tree as it was. */
  lemma HandleScoreChangeAbsent(structure: seq<StructureNode>, addr: CauseAddress, e: CauseEdit)
    requires forall row :: row in CauseRows(structure) ==> AddressOf(row) != addr
    ensures HandleScoreChange(structure, addr, e) == structure
  {
    UpdateCauseAtAbsent(structure, addr, CauseEditOp(e));
  }
}

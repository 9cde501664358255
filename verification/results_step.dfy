/** Step 7, result documentation: the results table (two header rows, then
    one or more rows per cause with its actions) and its CSV export. */
module ResultsStep {
  import opened FmeaTypes
  import opened SeqUtil
  import opened RiskStep
  import opened Csv

  /** A table cell: its text and the number of columns it spans. */
  datatype Cell = Cell(text: string, span: nat)

  /** The number of columns a row of cells covers. */
  function Width(cells: seq<Cell>): nat {
    if cells == [] then 0 else cells[0].span + Width(cells[1..])
  }

  lemma {:induction false} WidthConcat(a: seq<Cell>, b: seq<Cell>)
    ensures Width(a + b) == Width(a) + Width(b)
  {
    if a == [] {
      assert a + b == b;
    } else {
      assert (a + b)[1..] == a[1..] + b;
      WidthConcat(a[1..], b);
    }
  }

  /** One-column cells with the given texts. */
  function Plain(texts: seq<string>): (r: seq<Cell>)
    ensures |r| == |texts|
    ensures forall i :: 0 <= i < |r| ==> r[i] == Cell(texts[i], 1)
  {
    seq(|texts|, i requires 0 <= i < |texts| => Cell(texts[i], 1))
  }

  lemma {:induction false} PlainWidth(texts: seq<string>)
    ensures Width(Plain(texts)) == |texts|
  {
    if texts != [] {
      assert Plain(texts)[1..] == Plain(texts[1..]);
      PlainWidth(texts[1..]);
    }
  }

  /** What the CSV export keeps of a row: the cell texts, in order. */
  function Texts(cells: seq<Cell>): (r: seq<string>)
    ensures |r| == |cells|
    ensures forall i :: 0 <= i < |cells| ==> r[i] == cells[i].text
  {
    seq(|cells|, i requires 0 <= i < |cells| => cells[i].text)
  }

  // ---------------------------------------------------------------------
  // The header
  // ---------------------------------------------------------------------

  /** The second header row: one name per column. */
  function HeaderNames(): seq<string> {
    ["System Element", "Function", "Requirement", "Failure Mode", "Effect", "S",
     "Cause", "O", "Prevention", "Detection", "D", "AP",
     "Action", "Resp.", "Date", "Action Taken", "S", "O", "D", "AP"]
  }

  /** The first header row as written: the four analysis groups, the last
      spanning 7 columns. */
  function HeaderGroupsAsWritten(): seq<Cell> {
    [Cell("Structure Analysis", 3), Cell("Failure Analysis", 3), Cell("Risk Analysis", 6), Cell("Optimization", 7)]
  }

  /** The first header row with the optimisation group spanning its 8
      columns (action, responsible, date, action taken and the re-rated
      S, O, D and AP). */
  function HeaderGroups(): seq<Cell> {
    [Cell("Structure Analysis", 3), Cell("Failure Analysis", 3), Cell("Risk Analysis", 6), Cell("Optimization", 8)]
  }

  /** As written, the groups cover 19 of the 20 named columns: the last AP
      column has no group above it. */
  lemma HeaderGroupsAsWrittenShort()
    ensures Width(HeaderGroupsAsWritten()) == 19 && |HeaderNames()| == 20
  {
    var g := HeaderGroupsAsWritten();
    assert Width(g[3..]) == 7;
    assert Width(g[2..]) == 13;
    assert Width(g[1..]) == 16;
  }

  /** The groups cover exactly the named columns, and the optimisation group
      starts at the first action column. */
  lemma HeaderGroupsCoverColumns()
    ensures Width(HeaderGroups()) == |HeaderNames()|
    ensures Width(HeaderGroups()[..3]) == 12 && HeaderNames()[12] == "Action"
    ensures HeaderGroups()[3] == Cell("Optimization", |HeaderNames()| - 12)
  {
    var g := HeaderGroups();
    assert Width(g[3..]) == 8;
    assert Width(g[2..]) == 14;
    assert Width(g[1..]) == 17;
    var h := g[..3];
    assert Width(h[2..]) == 6;
    assert Width(h[1..]) == 9;
  }

  // ---------------------------------------------------------------------
  // The body rows
  // ---------------------------------------------------------------------

  /** `baseRow`: the 12 structure, failure and risk cells of a cause; the
      effects are joined with "; ", scores written in decimal and the
      priority by its letter. */
  function BaseTexts(r: CauseRow): (t: seq<string>)
    ensures |t| == 12
  {
    [r.ctx.nodeName, r.ctx.funcDescription, r.ctx.funcRequirements, r.ctx.failureMode,
     Join(r.ctx.failureEffects, "; "), IntToString(r.cause.severity), r.cause.description,
     IntToString(r.cause.occurrence), r.cause.preventionControl, r.cause.detectionControl,
     IntToString(r.cause.detection), r.cause.actionPriority.Code()]
  }

  /** The risk cells of an exported row determine the cause's rating: equal
      S, O and D cells mean equal scores, and the AP cell names the priority. */
  lemma BaseTextsDetermineRating(r1: CauseRow, r2: CauseRow)
    ensures BaseTexts(r1)[11] == BaseTexts(r2)[11] <==> r1.cause.actionPriority == r2.cause.actionPriority
    ensures BaseTexts(r1)[5] == BaseTexts(r2)[5] <==> r1.cause.severity == r2.cause.severity
    ensures BaseTexts(r1)[7] == BaseTexts(r2)[7] <==> r1.cause.occurrence == r2.cause.occurrence
    ensures BaseTexts(r1)[10] == BaseTexts(r2)[10] <==> r1.cause.detection == r2.cause.detection
  {
    PriorityCodesDistinct(r1.cause.actionPriority, r2.cause.actionPriority);
    if BaseTexts(r1)[5] == BaseTexts(r2)[5] {
      IntToStringInjective(r1.cause.severity, r2.cause.severity);
    }
    if BaseTexts(r1)[7] == BaseTexts(r2)[7] {
      IntToStringInjective(r1.cause.occurrence, r2.cause.occurrence);
    }
    if BaseTexts(r1)[10] == BaseTexts(r2)[10] {
      IntToStringInjective(r1.cause.detection, r2.cause.detection);
    }
  }

  /** The 12 leading cells of a cause's later action rows: the element name,
      then a ditto mark in each of the other 11 columns. */
  function DittoTexts(r: CauseRow): (t: seq<string>)
    ensures |t| == 12
  {
    [r.ctx.nodeName] + seq(11, _ => "\"")
  }

  /** The 8 optimisation cells of an action. */
  function ActionTexts(a: FmeaAction): (t: seq<string>)
    ensures |t| == 8
  {
    [a.description, a.responsible, a.targetDate, a.takenAction,
     IntToString(a.newSeverity), IntToString(a.newOccurrence), IntToString(a.newDetection),
     a.newActionPriority.Code()]
  }

  /** The "None" cell of a cause without actions, as written: 7 columns. */
  function NoActionRowAsWritten(r: CauseRow): seq<Cell> {
    Plain(BaseTexts(r)) + [Cell("None", 7)]
  }

  /** As written, a cause without actions gets a row one column narrower
      than the header; its texts, which is all the CSV keeps, are those of
      the corrected row. */
  lemma NoActionRowAsWrittenShort(r: CauseRow)
    requires |r.cause.actions| == 0
    ensures Width(NoActionRowAsWritten(r)) == |HeaderNames()| - 1
    ensures Texts(NoActionRowAsWritten(r)) == Texts(ResultRowsFor(r)[0])
  {
    PlainWidth(BaseTexts(r));
    WidthConcat(Plain(BaseTexts(r)), [Cell("None", 7)]);
    assert Width([Cell("None", 7)]) == 7;
  }

  /** The number of rows a cause contributes. */
  function Slots(r: CauseRow): nat {
    if |r.cause.actions| == 0 then 1 else |r.cause.actions|
  }

  /** The rows of one cause: a single row with the base cells and a "None"
      cell spanning the 8 optimisation columns (the corrected span; the
      source's 7 is `NoActionRowAsWritten`) when it has no action, else
      one row per action, the first with the base cells, the others with
      the ditto cells, each followed by the action's cells. */
  function ResultRowsFor(r: CauseRow): (rows: seq<seq<Cell>>)
    ensures |rows| == Slots(r)
  {
    var actions := r.cause.actions;
    if |actions| == 0 then [Plain(BaseTexts(r)) + [Cell("None", 8)]]
    else seq(|actions|, k requires 0 <= k < |actions| =>
           Plain((if k == 0 then BaseTexts(r) else DittoTexts(r)) + ActionTexts(actions[k])))
  }

  /** The shape of a cause's rows: each covers exactly the 20 header columns
      and starts with the element name; without actions the one row holds
      the 12 base cells and "None"; with actions, row k ends with the cells
      of action k, the first row starts with the base cells and every later
      one with the name and 11 ditto marks. */
  lemma ResultRowsForShape(r: CauseRow)
    ensures forall k :: 0 <= k < |ResultRowsFor(r)| ==>
      Width(ResultRowsFor(r)[k]) == |HeaderNames()| && Texts(ResultRowsFor(r)[k])[0] == r.ctx.nodeName
    ensures |r.cause.actions| == 0 ==>
      |ResultRowsFor(r)[0]| == 13 && Texts(ResultRowsFor(r)[0]) == BaseTexts(r) + ["None"]
    ensures forall k :: 0 <= k < |r.cause.actions| ==>
      |ResultRowsFor(r)[k]| == 20 && Texts(ResultRowsFor(r)[k])[12..] == ActionTexts(r.cause.actions[k])
    ensures |r.cause.actions| > 0 ==> Texts(ResultRowsFor(r)[0])[..12] == BaseTexts(r)
    ensures forall k :: 1 <= k < |r.cause.actions| ==>
      forall c :: 1 <= c < 12 ==> Texts(ResultRowsFor(r)[k])[c] == "\""
  {
    var rows := ResultRowsFor(r);
    var actions := r.cause.actions;
    if |actions| == 0 {
      PlainWidth(BaseTexts(r));
      WidthConcat(Plain(BaseTexts(r)), [Cell("None", 8)]);
      assert Width([Cell("None", 8)]) == 8;
      assert Texts(rows[0]) == BaseTexts(r) + ["None"];
    } else {
      forall k | 0 <= k < |actions|
        ensures Width(rows[k]) == |HeaderNames()| && Texts(rows[k])[0] == r.ctx.nodeName
        ensures |rows[k]| == 20 && Texts(rows[k])[12..] == ActionTexts(actions[k])
      {
        var lead := if k == 0 then BaseTexts(r) else DittoTexts(r);
        PlainWidth(lead + ActionTexts(actions[k]));
        assert Texts(rows[k])[12..] == ActionTexts(actions[k]);
      }
      assert Texts(rows[0])[..12] == BaseTexts(r);
    }
  }

  /** The total number of rows the causes contribute. */
  function TotalSlots(rows: seq<CauseRow>): nat {
    if rows == [] then 0 else Slots(rows[0]) + TotalSlots(rows[1..])
  }

  /** Emitting each cause's rows. */
  function ResultRowsOf(): CauseRow -> seq<seq<Cell>> {
    (r: CauseRow) => ResultRowsFor(r)
  }

  /** The body of the results table, cause by cause in worksheet order. */
  function ResultRows(structure: seq<StructureNode>): seq<seq<Cell>> {
    EmitAll(CauseRows(structure), ResultRowsOf())
  }

  /** There are max(1, number of actions) rows per cause, so at least one per
      cause, and, with the corrected "None" span, every row covers the 20
      header columns. */
  lemma {:induction false} EmitResultRows(rows: seq<CauseRow>)
    ensures |EmitAll(rows, ResultRowsOf())| == TotalSlots(rows) >= |rows|
    ensures forall t :: t in EmitAll(rows, ResultRowsOf()) ==> Width(t) == |HeaderNames()|
  {
    if rows != [] {
      EmitResultRows(rows[1..]);
      ResultRowsForShape(rows[0]);
      var here := ResultRowsFor(rows[0]);
      var later := EmitAll(rows[1..], ResultRowsOf());
      assert EmitAll(rows, ResultRowsOf()) == here + later;
      forall t | t in here + later ensures Width(t) == |HeaderNames()| {
        if t in here {
          var k :| 0 <= k < |here| && here[k] == t;
        }
      }
    }
  }

  /** Step 7's `renderRows` with the "None" cell spanning the 8 optimisation
      columns: the body rows in worksheet order; there are as many as the
      causes' row counts add up to, and each covers the 20 header columns. */
  method RenderResultRows(structure: seq<StructureNode>) returns (rows: seq<seq<Cell>>)
    ensures rows == ResultRows(structure)
    ensures |rows| == TotalSlots(CauseRows(structure)) >= CauseCount(structure)
    ensures forall t :: t in rows ==> Width(t) == |HeaderNames()|
  {
    rows := WalkCauses(structure, [], ResultRowsOf());
    EmitResultRows(CauseRows(structure));
    CauseRowsLength(structure);
  }

  // ---------------------------------------------------------------------
  // The CSV export
  // ---------------------------------------------------------------------

  /** The whole table: the two header rows, then the body. */
  function ResultTable(structure: seq<StructureNode>): seq<seq<Cell>> {
    [HeaderGroups(), Plain(HeaderNames())] + ResultRows(structure)
  }

  /** The texts of every row of a table. */
  function TableTexts(table: seq<seq<Cell>>): (r: seq<seq<string>>)
    ensures |r| == |table|
    ensures forall i :: 0 <= i < |table| ==> r[i] == Texts(table[i])
  {
    seq(|table|, i requires 0 <= i < |table| => Texts(table[i]))
  }

  /** `exportToCSV`'s text: every row of the table, header rows included,
      as quoted cells. */
  function ExportCsv(structure: seq<StructureNode>): string {
    EncodeTable(TableTexts(ResultTable(structure)))
  }

  /** No row of the table is empty: the header rows have 4 and 20 cells and
      every body row covers 20 columns. */
  lemma ResultTableRowsNonEmpty(structure: seq<StructureNode>)
    ensures forall i :: 0 <= i < |ResultTable(structure)| ==> |ResultTable(structure)[i]| >= 1
  {
    var table := ResultTable(structure);
    var body := ResultRows(structure);
    EmitResultRows(CauseRows(structure));
    forall i | 0 <= i < |table| ensures |table[i]| >= 1 {
      if i >= 2 {
        assert table[i] == body[i - 2];
        assert table[i] in body;
        assert Width(table[i]) == 20;
      }
    }
  }

  /** The table's texts: the four group titles, the 20 column names, then
      one record per body row. */
  lemma ResultTableTexts(structure: seq<StructureNode>)
    ensures var t := TableTexts(ResultTable(structure));
      |t| == 2 + TotalSlots(CauseRows(structure))
      && t[0] == Texts(HeaderGroups()) && t[1] == HeaderNames()
  {
    EmitResultRows(CauseRows(structure));
    var t := TableTexts(ResultTable(structure));
    assert t[1] == Texts(Plain(HeaderNames()));
  }

  /** Reading the export back by RFC 4180 gives exactly the table's texts. */
  lemma ExportCsvRoundTrip(structure: seq<StructureNode>)
    ensures ParseTable(ExportCsv(structure)) == Some(TableTexts(ResultTable(structure)))
  {
    var t := TableTexts(ResultTable(structure));
    ResultTableRowsNonEmpty(structure);
    assert forall i :: 0 <= i < |t| ==> |t[i]| >= 1;
    TableRoundTrip(t);
  }
}

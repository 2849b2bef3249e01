/**
 The row flattening of the spreadsheet export: the quadrants in display
 order, and within each its ideas in list order, become `(Quadrant, Idea)`
 records. The sidebar is not part of the export. Writing the records to a
 workbook file is outside the model.
 */
module ExcelExport {
  import opened Types
  import opened BoardInvariant
  import opened Store

  /** One exported record: the quadrant's label and the idea's text. */
  datatype ExportRow = ExportRow(quadrant: string, idea: string)

  /** What an untitled quadrant is exported as. */
  const UnnamedQuadrant: string := "Unnamed Quadrant"

  /** `col.title || 'Unnamed Quadrant'`: the title, or the placeholder when
      the title is the empty string. */
  function QuadrantLabel(title: string): (shown: string)
    ensures shown != ""
    ensures title != "" ==> shown == title
    ensures title == "" ==> shown == UnnamedQuadrant
  {
    if title == "" then UnnamedQuadrant else title
  }

  /** Every column `order` names exists and lists only existing ideas, so the
      flattening looks nothing up in vain. */
  predicate Exportable(order: seq<string>, cols: map<string, Column>, ideas: map<string, Idea>)
  {
    && (forall k :: k in order ==> k in cols)
    && (forall k, x :: k in order && k in cols && x in cols[k].ideaIds ==> x in ideas)
  }

  /** The records of one column: one per idea in list order. */
  function ColumnRows(col: Column, ideas: map<string, Idea>): (rows: seq<ExportRow>)
    requires forall x :: x in col.ideaIds ==> x in ideas
    ensures |rows| == |col.ideaIds|
    ensures forall i :: 0 <= i < |rows| ==>
              rows[i] == ExportRow(QuadrantLabel(col.title), ideas[col.ideaIds[i]].content)
    decreases |col.ideaIds|
  {
    if |col.ideaIds| == 0 then []
    else
      var first := ExportRow(QuadrantLabel(col.title), ideas[col.ideaIds[0]].content);
      [first] + ColumnRows(col.(ideaIds := col.ideaIds[1..]), ideas)
  }

  /** The records of the columns `order` names, column after column. */
  function RowsFor(order: seq<string>, cols: map<string, Column>, ideas: map<string, Idea>): (rows: seq<ExportRow>)
    requires Exportable(order, cols, ideas)
    ensures forall i :: 0 <= i < |rows| ==> rows[i].quadrant != ""
    decreases |order|
  {
    if |order| == 0 then []
    else
      ExportableTail(order, cols, ideas);
      ColumnRows(cols[order[0]], ideas) + RowsFor(order[1..], cols, ideas)
  }

  lemma ExportableTail(order: seq<string>, cols: map<string, Column>, ideas: map<string, Idea>)
    requires Exportable(order, cols, ideas) && |order| > 0
    ensures order[0] in cols && forall x :: x in cols[order[0]].ideaIds ==> x in ideas
    ensures Exportable(order[1..], cols, ideas)
  {
    assert order[0] in order;
    assert forall k :: k in order[1..] ==> k in order;
  }

  /** One record per id the named columns hold. */
  lemma {:induction false} RowsForCount(order: seq<string>, cols: map<string, Column>, ideas: map<string, Idea>)
    requires Exportable(order, cols, ideas)
    ensures |RowsFor(order, cols, ideas)| == |ListedIn(order, cols)|
    decreases |order|
  {
    if |order| > 0 {
      ExportableTail(order, cols, ideas);
      RowsForCount(order[1..], cols, ideas);
    }
  }

  /** The export of a board: all quadrants in display order. */
  function ExportRows(b: Board): (rows: seq<ExportRow>)
    requires Exportable(b.columnOrder, b.columns, b.ideas)
    ensures |rows| == |ListedIn(b.columnOrder, b.columns)|
    ensures forall i :: 0 <= i < |rows| ==> rows[i].quadrant != ""
  {
    RowsForCount(b.columnOrder, b.columns, b.ideas);
    RowsFor(b.columnOrder, b.columns, b.ideas)
  }

  /** A valid board can always be exported. */
  lemma ValidIsExportable(b: Board)
    requires Valid(b)
    ensures Exportable(b.columnOrder, b.columns, b.ideas)
  {
    ValidImpliesPointwise(b);
  }

  /** On a valid board the export has one record for every idea that is not
      in the sidebar. */
  lemma ExportCount(b: Board)
    requires Valid(b)
    ensures Exportable(b.columnOrder, b.columns, b.ideas)
    ensures |ExportRows(b)| == |b.ideas| - |b.columns[Unassigned].ideaIds|
  {
    ValidIsExportable(b);
    RowsForCount(b.columnOrder, b.columns, b.ideas);
    assert |Placed(b)| == |multiset(b.ideas.Keys)| == |b.ideas.Keys|;
  }

  /** The export of two consecutive runs of columns is the export of the
      first followed by the export of the second: records follow the column
      order. */
  lemma {:induction false} RowsForAppend(o1: seq<string>, o2: seq<string>, cols: map<string, Column>, ideas: map<string, Idea>)
    requires Exportable(o1, cols, ideas) && Exportable(o2, cols, ideas)
    ensures Exportable(o1 + o2, cols, ideas)
    ensures RowsFor(o1 + o2, cols, ideas) == RowsFor(o1, cols, ideas) + RowsFor(o2, cols, ideas)
    decreases |o1|
  {
    ExportableAppend(o1, o2, cols, ideas);
    if |o1| == 0 {
      assert o1 + o2 == o2;
    } else {
      var k, tail := o1[0], o1[1..];
      assert (o1 + o2)[0] == k && (o1 + o2)[1..] == tail + o2;
      ExportableTail(o1, cols, ideas);
      RowsForAppend(tail, o2, cols, ideas);
      var head := ColumnRows(cols[k], ideas);
      assert RowsFor(o1 + o2, cols, ideas) == head + RowsFor(tail + o2, cols, ideas);
      assert RowsFor(o1, cols, ideas) == head + RowsFor(tail, cols, ideas);
    }
  }

  lemma ExportableAppend(o1: seq<string>, o2: seq<string>, cols: map<string, Column>, ideas: map<string, Idea>)
    requires Exportable(o1, cols, ideas) && Exportable(o2, cols, ideas)
    ensures Exportable(o1 + o2, cols, ideas)
  {
  }

  /** The export reads only the columns `order` names and the ideas they
      list. */
  lemma {:induction false} RowsForFrame(order: seq<string>, c1: map<string, Column>, i1: map<string, Idea>,
                                        c2: map<string, Column>, i2: map<string, Idea>)
    requires Exportable(order, c1, i1)
    requires forall k :: k in order ==> k in c2 && c2[k] == c1[k]
    requires forall k, x :: k in order && x in c1[k].ideaIds ==> x in i2 && i2[x] == i1[x]
    ensures Exportable(order, c2, i2)
    ensures RowsFor(order, c2, i2) == RowsFor(order, c1, i1)
    decreases |order|
  {
    ExportableFrame(order, c1, i1, c2, i2);
    if |order| > 0 {
      var k := order[0];
      assert k in order;
      var tail := order[1..];
      ExportableTail(order, c1, i1);
      assert forall k' :: k' in tail ==> k' in order;
      RowsForFrame(tail, c1, i1, c2, i2);
      ColumnRowsFrame(c1[k], i1, i2);
      assert RowsFor(order, c2, i2) == ColumnRows(c2[k], i2) + RowsFor(tail, c2, i2);
      assert RowsFor(order, c1, i1) == ColumnRows(c1[k], i1) + RowsFor(tail, c1, i1);
    }
  }

  lemma ExportableFrame(order: seq<string>, c1: map<string, Column>, i1: map<string, Idea>,
                        c2: map<string, Column>, i2: map<string, Idea>)
    requires Exportable(order, c1, i1)
    requires forall k :: k in order ==> k in c2 && c2[k] == c1[k]
    requires forall k, x :: k in order && x in c1[k].ideaIds ==> x in i2 && i2[x] == i1[x]
    ensures Exportable(order, c2, i2)
  {
  }

  lemma ColumnRowsFrame(col: Column, i1: map<string, Idea>, i2: map<string, Idea>)
    requires forall x :: x in col.ideaIds ==> x in i1 && x in i2 && i2[x] == i1[x]
    ensures ColumnRows(col, i2) == ColumnRows(col, i1)
  {
  }

  /** Adding an idea leaves the export as it was: new ideas go to the
      sidebar, which is not exported. */
  lemma AddIdeaKeepsExport(b: Board, content: string, id: string, color: string)
    requires Valid(b) && id !in b.ideas && color in StickyColors
    ensures Exportable(b.columnOrder, b.columns, b.ideas)
    ensures Valid(AddIdea(b, content, id, color))
    ensures ExportRows(AddIdea(b, content, id, color)) == ExportRows(b)
  {
    ValidIsExportable(b);
    AddIdeaPreservesValid(b, content, id, color);
    var r := AddIdea(b, content, id, color);
    assert forall k :: k in b.columnOrder ==> k != Unassigned;
    RowsForFrame(b.columnOrder, b.columns, b.ideas, r.columns, r.ideas);
  }

  /** A board with the single quadrant `Risks` holding the single idea
      `Legacy code` exports as exactly one record `Risks | Legacy code`. */
  lemma SingleQuadrantExample()
    ensures
      var b := Board(
        map["i1" := Idea("i1", "Legacy code", "bg-yellow-200")],
        map[Unassigned := UnassignedColumn, "q1" := Column("q1", "Risks", ["i1"], QuadrantBg(0))],
        ["q1"]);
      && Exportable(b.columnOrder, b.columns, b.ideas)
      && ExportRows(b) == [ExportRow("Risks", "Legacy code")]
  {
    var b := Board(
      map["i1" := Idea("i1", "Legacy code", "bg-yellow-200")],
      map[Unassigned := UnassignedColumn, "q1" := Column("q1", "Risks", ["i1"], QuadrantBg(0))],
      ["q1"]);
    assert ["q1"][1..] == [];
    assert ColumnRows(b.columns["q1"], b.ideas) == [ExportRow("Risks", "Legacy code")];
  }
}

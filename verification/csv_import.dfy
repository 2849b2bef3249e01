/**
 The row handling of the CSV import. The file picker and the CSV parser are
 outside the model: the parsed rows are the input, each a sequence of
 fields. Every row whose first field is present and non-empty is handed to
 the add-idea handler, in file order; the ids and colours those calls would
 draw at random are given per row.
 */
module CsvImport {
  import opened Types
  import opened Splice
  import opened Text
  import opened BoardInvariant
  import opened Store

  /** `row[0]` as JavaScript reads it: the first field, or `undefined` when
      the row has no fields. */
  function FirstField(row: seq<string>): Option<string>
  {
    if |row| > 0 then Some(row[0]) else None
  }

  /** JavaScript truthiness of a string-or-`undefined` value: `undefined` and
      the empty string are falsy, every other string is truthy. */
  predicate Truthy(v: Option<string>)
  {
    v.Some? && v.value != ""
  }

  /** The guard `if (row[0])`: a first field exists and is not the empty
      string. */
  function HasFirstField(row: seq<string>): (present: bool)
    ensures present <==> Truthy(FirstField(row))
    ensures present ==> FirstField(row) == Some(row[0])
  {
    |row| > 0 && row[0] != ""
  }

  /** Whether a row ends up as a new idea: it passes the import's guard and
      its text is not blank, so the add-idea handler does not ignore it. */
  function Imports(row: seq<string>): (imported: bool)
    ensures imported <==> Truthy(FirstField(row)) && !AllWhitespace(FirstField(row).value)
  {
    HasFirstField(row) && !AllWhitespace(row[0])
  }

  /** A row is imported exactly when `row[0]` is truthy and, trimmed, still
      non-empty: the import's guard followed by the add-idea handler's. */
  lemma ImportsIffTrimmed(row: seq<string>)
    ensures Imports(row) <==> Truthy(FirstField(row)) && Trim(FirstField(row).value) != ""
  {
    if |row| > 0 {
      TrimEmptyIffBlank(row[0]);
    }
  }

  /** The ids of the rows that become ideas, in file order. */
  function ImportedIds(rows: seq<seq<string>>, ids: seq<string>): (r: seq<string>)
    requires |ids| == |rows|
    ensures forall x :: x in r ==> x in ids
    ensures forall i :: 0 <= i < |rows| && Imports(rows[i]) ==> ids[i] in r
    ensures NoDup(ids) ==> NoDup(r)
    ensures NoDup(ids) ==> forall i :: 0 <= i < |rows| ==> (ids[i] in r <==> Imports(rows[i]))
    decreases |rows|
  {
    if |rows| == 0 then []
    else
      var rest := ImportedIds(rows[1..], ids[1..]);
      assert NoDup(ids) ==> ids[0] !in ids[1..] && NoDup(ids[1..]);
      assert forall i :: 1 <= i < |rows| ==> rows[i] == rows[1..][i - 1] && ids[i] == ids[1..][i - 1];
      if Imports(rows[0]) then [ids[0]] + rest
      else rest
  }

  /** The import filter goes through the file in order: the ids of a file
      made of two parts are those of the first part followed by those of the
      second. */
  lemma {:induction false} ImportedIdsAppend(r1: seq<seq<string>>, r2: seq<seq<string>>, i1: seq<string>, i2: seq<string>)
    requires |i1| == |r1| && |i2| == |r2|
    ensures ImportedIds(r1 + r2, i1 + i2) == ImportedIds(r1, i1) + ImportedIds(r2, i2)
    decreases |r1|
  {
    if |r1| == 0 {
      assert r1 + r2 == r2 && i1 + i2 == i2;
    } else {
      assert (r1 + r2)[0] == r1[0] && (r1 + r2)[1..] == r1[1..] + r2;
      assert (i1 + i2)[0] == i1[0] && (i1 + i2)[1..] == i1[1..] + i2;
      ImportedIdsAppend(r1[1..], r2, i1[1..], i2);
    }
  }

  /** A single row contributes its id exactly when it is imported. */
  lemma ImportedIdsSingle(row: seq<string>, id: string)
    ensures ImportedIds([row], [id]) == if Imports(row) then [id] else []
  {
    assert [row][1..] == [] && [id][1..] == [];
  }

  /** `s` back to front. */
  function Reverse(s: seq<string>): (r: seq<string>)
    ensures |r| == |s|
    ensures forall i :: 0 <= i < |s| ==> r[i] == s[|s| - 1 - i]
  {
    if |s| == 0 then [] else Reverse(s[1..]) + [s[0]]
  }

  lemma ReverseCons(x: string, s: seq<string>)
    ensures Reverse([x] + s) == Reverse(s) + [x]
  {
    assert ([x] + s)[1..] == s;
  }

  /** Regrouping a concatenation. Dafny knows this fact; stating it as a
      lemma and calling it once in `ImportRows` keeps that function's
      well-formedness proof within the solver's budget, where the inline
      equality does not. */
  lemma AppendAssoc(a: seq<string>, b: seq<string>, c: seq<string>)
    ensures a + (b + c) == (a + b) + c
  {
  }

  /** Ids given for the rows are distinct and not yet ideas of the board. */
  predicate FreshFor(b: Board, ids: seq<string>)
  {
    NoDup(ids) && forall i :: 0 <= i < |ids| ==> ids[i] !in b.ideas
  }

  /** Imports the parsed rows one by one. Since each new idea goes to the
      front of the sidebar, the imported ideas end up there in reverse file
      order, ahead of what the sidebar held before. */
  function ImportRows(b: Board, rows: seq<seq<string>>, ids: seq<string>, colors: seq<string>): (r: Board)
    requires Unassigned in b.columns
    requires |ids| == |rows| && |colors| == |rows|
    requires FreshFor(b, ids)
    requires forall i :: 0 <= i < |colors| ==> colors[i] in StickyColors
    ensures r.columns.Keys == b.columns.Keys
    ensures r.columns[Unassigned].ideaIds == Reverse(ImportedIds(rows, ids)) + b.columns[Unassigned].ideaIds
    ensures r.columns[Unassigned] == b.columns[Unassigned].(ideaIds := r.columns[Unassigned].ideaIds)
    ensures forall k :: k in b.columns && k != Unassigned ==> r.columns[k] == b.columns[k]
    ensures r.columnOrder == b.columnOrder
    decreases |rows|
  {
    if |rows| == 0 then b
    else
      var b' := if HasFirstField(rows[0]) then AddIdea(b, rows[0][0], ids[0], colors[0]) else b;
      FreshAfterFirst(b, rows, ids, colors);
      var r := ImportRows(b', rows[1..], ids[1..], colors[1..]);
      var later := ImportedIds(rows[1..], ids[1..]);
      if Imports(rows[0]) then
        assert ImportedIds(rows, ids) == [ids[0]] + later;
        assert ([ids[0]] + later)[1..] == later;
        assert b'.columns[Unassigned].ideaIds == [ids[0]] + b.columns[Unassigned].ideaIds;
        ReverseCons(ids[0], later);
        AppendAssoc(Reverse(later), [ids[0]], b.columns[Unassigned].ideaIds);
        r
      else
        assert b'.columns[Unassigned] == b.columns[Unassigned];
        r
  }

  /** After the first row the remaining ids are still fresh. */
  lemma FreshAfterFirst(b: Board, rows: seq<seq<string>>, ids: seq<string>, colors: seq<string>)
    requires Unassigned in b.columns
    requires |ids| == |rows| && |colors| == |rows| && |rows| > 0
    requires FreshFor(b, ids)
    requires forall i :: 0 <= i < |colors| ==> colors[i] in StickyColors
    ensures FreshFor(if HasFirstField(rows[0]) then AddIdea(b, rows[0][0], ids[0], colors[0]) else b, ids[1..])
  {
    var b' := if HasFirstField(rows[0]) then AddIdea(b, rows[0][0], ids[0], colors[0]) else b;
    forall i | 0 <= i < |ids| - 1 ensures ids[1..][i] !in b'.ideas {
      assert ids[1..][i] == ids[i + 1] != ids[0];
    }
  }

  /** The ideas after the import are those before plus one per imported
      row. */
  lemma {:induction false} ImportRowsKeys(b: Board, rows: seq<seq<string>>, ids: seq<string>, colors: seq<string>)
    requires Unassigned in b.columns
    requires |ids| == |rows| && |colors| == |rows|
    requires FreshFor(b, ids)
    requires forall i :: 0 <= i < |colors| ==> colors[i] in StickyColors
    ensures forall x :: x in ImportRows(b, rows, ids, colors).ideas <==> x in b.ideas || x in ImportedIds(rows, ids)
    decreases |rows|
  {
    if |rows| > 0 {
      var b' := if HasFirstField(rows[0]) then AddIdea(b, rows[0][0], ids[0], colors[0]) else b;
      FreshAfterFirst(b, rows, ids, colors);
      ImportRowsKeys(b', rows[1..], ids[1..], colors[1..]);
      assert ImportRows(b, rows, ids, colors) == ImportRows(b', rows[1..], ids[1..], colors[1..]);
      var later := ImportedIds(rows[1..], ids[1..]);
      if Imports(rows[0]) {
        assert b'.ideas.Keys == b.ideas.Keys + {ids[0]};
        assert ImportedIds(rows, ids) == [ids[0]] + later;
      } else {
        assert b'.ideas == b.ideas;
        assert ImportedIds(rows, ids) == later;
      }
    }
  }

  /** The ideas already on the board are kept as they were. */
  lemma {:induction false} ImportRowsKeepsIdeas(b: Board, rows: seq<seq<string>>, ids: seq<string>, colors: seq<string>)
    requires Unassigned in b.columns
    requires |ids| == |rows| && |colors| == |rows|
    requires FreshFor(b, ids)
    requires forall i :: 0 <= i < |colors| ==> colors[i] in StickyColors
    ensures var r := ImportRows(b, rows, ids, colors);
      forall k :: k in b.ideas ==> k in r.ideas && r.ideas[k] == b.ideas[k]
    decreases |rows|
  {
    if |rows| > 0 {
      var b' := if HasFirstField(rows[0]) then AddIdea(b, rows[0][0], ids[0], colors[0]) else b;
      FreshAfterFirst(b, rows, ids, colors);
      ImportRowsKeepsIdeas(b', rows[1..], ids[1..], colors[1..]);
      assert ImportRows(b, rows, ids, colors) == ImportRows(b', rows[1..], ids[1..], colors[1..]);
    }
  }

  /** The ideas the import creates carry the row's first field as their text
      and the colour given for the row. */
  lemma {:induction false} ImportRowsIdeas(b: Board, rows: seq<seq<string>>, ids: seq<string>, colors: seq<string>)
    requires Unassigned in b.columns
    requires |ids| == |rows| && |colors| == |rows|
    requires FreshFor(b, ids)
    requires forall i :: 0 <= i < |colors| ==> colors[i] in StickyColors
    ensures var r := ImportRows(b, rows, ids, colors);
      forall i :: 0 <= i < |rows| && Imports(rows[i]) ==>
        ids[i] in r.ideas && r.ideas[ids[i]] == Idea(ids[i], rows[i][0], colors[i])
    decreases |rows|
  {
    if |rows| > 0 {
      var b' := if HasFirstField(rows[0]) then AddIdea(b, rows[0][0], ids[0], colors[0]) else b;
      FreshAfterFirst(b, rows, ids, colors);
      ImportRowsIdeas(b', rows[1..], ids[1..], colors[1..]);
      ImportRowsKeepsIdeas(b', rows[1..], ids[1..], colors[1..]);
      var r := ImportRows(b, rows, ids, colors);
      assert r == ImportRows(b', rows[1..], ids[1..], colors[1..]);
      forall i | 0 <= i < |rows| && Imports(rows[i])
        ensures ids[i] in r.ideas && r.ideas[ids[i]] == Idea(ids[i], rows[i][0], colors[i])
      {
        if i == 0 {
          assert b'.ideas[ids[0]] == Idea(ids[0], rows[0][0], colors[0]);
        } else {
          assert rows[i] == rows[1..][i - 1] && ids[i] == ids[1..][i - 1] && colors[i] == colors[1..][i - 1];
        }
      }
    }
  }

  /** Importing keeps the board invariant. */
  lemma {:induction false} ImportRowsPreservesValid(b: Board, rows: seq<seq<string>>, ids: seq<string>, colors: seq<string>)
    requires Valid(b)
    requires |ids| == |rows| && |colors| == |rows|
    requires FreshFor(b, ids)
    requires forall i :: 0 <= i < |colors| ==> colors[i] in StickyColors
    ensures Valid(ImportRows(b, rows, ids, colors))
    decreases |rows|
  {
    if |rows| > 0 {
      var b' := if HasFirstField(rows[0]) then AddIdea(b, rows[0][0], ids[0], colors[0]) else b;
      if HasFirstField(rows[0]) {
        AddIdeaPreservesValid(b, rows[0][0], ids[0], colors[0]);
      }
      FreshAfterFirst(b, rows, ids, colors);
      ImportRowsPreservesValid(b', rows[1..], ids[1..], colors[1..]);
    }
  }

  /** The import creates exactly one idea per imported row. */
  lemma {:induction false} ImportRowsCount(b: Board, rows: seq<seq<string>>, ids: seq<string>, colors: seq<string>)
    requires Unassigned in b.columns
    requires |ids| == |rows| && |colors| == |rows|
    requires FreshFor(b, ids)
    requires forall i :: 0 <= i < |colors| ==> colors[i] in StickyColors
    ensures |ImportRows(b, rows, ids, colors).ideas| == |b.ideas| + |ImportedIds(rows, ids)|
    decreases |rows|
  {
    if |rows| > 0 {
      var b' := if HasFirstField(rows[0]) then AddIdea(b, rows[0][0], ids[0], colors[0]) else b;
      FreshAfterFirst(b, rows, ids, colors);
      ImportRowsCount(b', rows[1..], ids[1..], colors[1..]);
      assert ImportRows(b, rows, ids, colors) == ImportRows(b', rows[1..], ids[1..], colors[1..]);
      if Imports(rows[0]) {
        assert b'.ideas.Keys == b.ideas.Keys + {ids[0]} && ids[0] !in b.ideas.Keys;
        assert |b'.ideas.Keys| == |b.ideas.Keys| + 1;
      } else {
        assert b'.ideas == b.ideas;
      }
    }
  }

  /** Of the rows `Idea A`, an empty row, `Idea B`, the first and the last
      become ideas. */
  lemma ThreeRowImportedIds(ids: seq<string>)
    requires |ids| == 3
    ensures ImportedIds([["Idea A"], [""], ["Idea B"]], ids) == [ids[0], ids[2]]
  {
    var rows := [["Idea A"], [""], ["Idea B"]];
    assert !IsJsWhitespace("Idea A"[0]) && !IsJsWhitespace("Idea B"[0]);
    assert Imports(rows[0]) && !Imports(rows[1]) && Imports(rows[2]);
    assert rows[1..][1..] == [rows[2]] && [rows[2]][1..] == [];
    assert ids[1..][1..] == [ids[2]] && [ids[2]][1..] == [];
    assert ImportedIds([rows[2]], [ids[2]]) == [ids[2]];
  }

  /** A three-row file `Idea A`, an empty row, `Idea B` puts exactly two
      ideas into the sidebar, the later row first. */
  lemma ThreeRowExampleSidebar(b: Board, ids: seq<string>, colors: seq<string>)
    requires Unassigned in b.columns
    requires |ids| == 3 && |colors| == 3 && FreshFor(b, ids)
    requires forall i :: 0 <= i < 3 ==> colors[i] in StickyColors
    ensures ImportRows(b, [["Idea A"], [""], ["Idea B"]], ids, colors).columns[Unassigned].ideaIds
         == [ids[2], ids[0]] + b.columns[Unassigned].ideaIds
  {
    ThreeRowImportedIds(ids);
    assert Reverse([ids[0], ids[2]]) == [ids[2], ids[0]];
  }

  /** The same file creates exactly two ideas; the skipped row's id is not
      used. */
  lemma ThreeRowExampleCount(b: Board, ids: seq<string>, colors: seq<string>)
    requires Unassigned in b.columns
    requires |ids| == 3 && |colors| == 3 && FreshFor(b, ids)
    requires forall i :: 0 <= i < 3 ==> colors[i] in StickyColors
    ensures
      var r := ImportRows(b, [["Idea A"], [""], ["Idea B"]], ids, colors);
      |r.ideas| == |b.ideas| + 2 && ids[1] !in r.ideas
  {
    var rows := [["Idea A"], [""], ["Idea B"]];
    ThreeRowImportedIds(ids);
    ImportRowsKeys(b, rows, ids, colors);
    ImportRowsCount(b, rows, ids, colors);
    assert ids[1] !in [ids[0], ids[2]];
  }

  /** The two ideas that file creates carry the two non-empty rows' text. */
  lemma ThreeRowExampleIdeas(b: Board, ids: seq<string>, colors: seq<string>)
    requires Unassigned in b.columns
    requires |ids| == 3 && |colors| == 3 && FreshFor(b, ids)
    requires forall i :: 0 <= i < 3 ==> colors[i] in StickyColors
    ensures
      var r := ImportRows(b, [["Idea A"], [""], ["Idea B"]], ids, colors);
      && ids[0] in r.ideas && ids[2] in r.ideas
      && r.ideas[ids[0]].content == "Idea A" && r.ideas[ids[2]].content == "Idea B"
  {
    var rows := [["Idea A"], [""], ["Idea B"]];
    assert Imports(rows[0]) && Imports(rows[2]) by {
      assert !IsJsWhitespace("Idea A"[0]) && !IsJsWhitespace("Idea B"[0]);
    }
    ImportRowsIdeas(b, rows, ids, colors);
  }

}

/**
 The board handlers that create, extend, shrink and rename: starting a fresh
 board, adding an idea, adding and removing a quadrant, and renaming a
 column. Each is a pure function from the current snapshot to the next one.

 The sources of non-determinism of the app's handlers are parameters:
 the fresh id of a new idea (a millisecond clock reading plus a random
 suffix of up to 9 characters there), the fresh id of a new quadrant (a
 millisecond clock reading alone there, so it is only as fresh as the clock),
 the colour of a new idea (a random palette entry there) and the answer to
 the confirmation dialog.
 */
module Store {
  import opened Types
  import opened Splice
  import opened Text
  import opened BoardInvariant

  // ---------------------------------------------------------------------
  // startBoard
  // ---------------------------------------------------------------------

  /** Id of the `i`-th quadrant of a fresh board: `q1`, `q2`, ... */
  function QuadrantId(i: nat): (id: string)
    ensures |id| >= 2 && id[0] == 'q'
    ensures forall k :: 1 <= k < |id| ==> '0' <= id[k] <= '9'
    ensures i >= 10 ==> |id| >= 3
  {
    "q" + NatToString(i)
  }

  /** Quadrant ids are distinct and never the sidebar's key. */
  lemma QuadrantIdInjective(i: nat, j: nat)
    ensures QuadrantId(i) == QuadrantId(j) ==> i == j
    ensures QuadrantId(i) != Unassigned
  {
    if QuadrantId(i) == QuadrantId(j) {
      assert NatToString(i) == QuadrantId(i)[1..] == QuadrantId(j)[1..] == NatToString(j);
      NatToStringInjective(i, j);
    }
    assert Unassigned[0] == 'u';
  }

  /** Columns listed in `order` that have empty lists contribute no ids. */
  lemma {:induction false} ListedInEmptyLists(order: seq<string>, cols: map<string, Column>)
    requires forall k :: k in order && k in cols ==> cols[k].ideaIds == []
    ensures ListedIn(order, cols) == multiset{}
    decreases |order|
  {
    if |order| > 0 {
      assert order[0] in order;
      ListedInEmptyLists(order[1..], cols);
    }
  }

  /** The quadrant ids of a fresh board: `q1` .. `qn`, in order. */
  method QuadrantOrder(n: nat) returns (order: seq<string>)
    ensures |order| == n
    ensures forall i :: 0 <= i < n ==> order[i] == QuadrantId(i + 1)
    ensures NoDup(order) && Unassigned !in order
  {
    order := [];
    var i := 1;
    while i <= n
      invariant 1 <= i <= n + 1
      invariant |order| == i - 1
      invariant forall j :: 0 <= j < |order| ==> order[j] == QuadrantId(j + 1)
      invariant NoDup(order) && Unassigned !in order
    {
      var id := QuadrantId(i);
      forall j | 0 <= j < |order| ensures order[j] != id {
        QuadrantIdInjective(j + 1, i);
      }
      QuadrantIdInjective(i, i);
      order := order + [id];
      i := i + 1;
    }
  }

  /** The columns of a fresh board: the empty sidebar, and for the quadrant at
      each position of `order` an untitled, empty column keyed by its id, with
      the palette background for that position. */
  method QuadrantColumns(order: seq<string>) returns (cols: map<string, Column>)
    requires NoDup(order) && Unassigned !in order
    ensures forall i :: 0 <= i < |order| ==>
              order[i] in cols && cols[order[i]] == Column(order[i], "", [], QuadrantBg(i))
    ensures forall k :: k in cols <==> k == Unassigned || k in order
    ensures Unassigned in cols && cols[Unassigned] == UnassignedColumn
    ensures forall k :: k in cols ==> cols[k].id == k && cols[k].ideaIds == []
  {
    cols := map[Unassigned := UnassignedColumn];
    var i := 0;
    while i < |order|
      invariant 0 <= i <= |order|
      invariant forall j :: 0 <= j < i ==> order[j] in cols && cols[order[j]] == Column(order[j], "", [], QuadrantBg(j))
      invariant forall k :: k in cols <==> k == Unassigned || k in order[..i]
      invariant Unassigned in cols && cols[Unassigned] == UnassignedColumn
      invariant forall k :: k in cols ==> cols[k].id == k && cols[k].ideaIds == []
    {
      assert order[..i + 1] == order[..i] + [order[i]];
      cols := cols[order[i] := Column(order[i], "", [], QuadrantBg(i))];
      i := i + 1;
    }
    assert order[..i] == order;
  }

  /** The quadrants of a fresh board: ids `q1` .. `qn` in order, each an
      untitled, empty column keyed by its id, next to the empty sidebar. */
  method FreshQuadrants(n: nat) returns (order: seq<string>, cols: map<string, Column>)
    ensures |order| == n
    ensures forall i :: 0 <= i < n ==>
              && order[i] == QuadrantId(i + 1)
              && order[i] in cols
              && cols[order[i]] == Column(QuadrantId(i + 1), "", [], QuadrantBg(i))
    ensures forall k :: k in cols <==> k == Unassigned || k in order
    ensures Unassigned in cols && cols[Unassigned] == UnassignedColumn
    ensures NoDup(order) && Unassigned !in order
    ensures forall k :: k in cols ==> cols[k].id == k && cols[k].ideaIds == []
  {
    order := QuadrantOrder(n);
    cols := QuadrantColumns(order);
  }

  /** A fresh board with `n` quadrants `q1` .. `qn`, all untitled and empty,
      their backgrounds cycling through the palette, no ideas, and an empty
      sidebar. */
  method StartBoard(n: nat) returns (b: Board)
    ensures b.ideas == map[]
    ensures Unassigned in b.columns && b.columns[Unassigned] == UnassignedColumn
    ensures |b.columnOrder| == n
    ensures forall i :: 0 <= i < n ==>
              && b.columnOrder[i] == QuadrantId(i + 1)
              && b.columnOrder[i] in b.columns
              && b.columns[b.columnOrder[i]] == Column(QuadrantId(i + 1), "", [], QuadrantBg(i))
    ensures b.columns.Keys == {Unassigned} + set k | k in b.columnOrder
    ensures Valid(b)
  {
    var order, cols := FreshQuadrants(n);
    b := Board(map[], cols, order);
    assert Shaped(b);
    ListedInEmptyLists(order, cols);
    assert Placed(b) == multiset{} == multiset(b.ideas.Keys);
  }

  // ---------------------------------------------------------------------
  // addIdea
  // ---------------------------------------------------------------------

  /** Stores a new idea under its id and puts that id at the front of the
      sidebar; nothing else changes. */
  function PushIdea(b: Board, idea: Idea): (r: Board)
    requires Unassigned in b.columns
    requires idea.id !in b.ideas
    ensures r.ideas.Keys == b.ideas.Keys + {idea.id}
    ensures r.ideas[idea.id] == idea
    ensures forall k :: k in b.ideas ==> r.ideas[k] == b.ideas[k]
    ensures r.columns.Keys == b.columns.Keys
    ensures r.columns[Unassigned].ideaIds == [idea.id] + b.columns[Unassigned].ideaIds
    ensures r.columns[Unassigned] == b.columns[Unassigned].(ideaIds := r.columns[Unassigned].ideaIds)
    ensures forall k :: k in b.columns && k != Unassigned ==> r.columns[k] == b.columns[k]
    ensures r.columnOrder == b.columnOrder
  {
    var sidebar := b.columns[Unassigned];
    Board(
      b.ideas[idea.id := idea],
      b.columns[Unassigned := sidebar.(ideaIds := [idea.id] + sidebar.ideaIds)],
      b.columnOrder)
  }

  /** Adds an idea with the given text, fresh id and palette colour at the
      front of the sidebar; text that trims to nothing, that is text made of
      whitespace only, is ignored. */
  function AddIdea(b: Board, content: string, id: string, color: string): (r: Board)
    requires Unassigned in b.columns
    requires id !in b.ideas
    requires color in StickyColors
    ensures AllWhitespace(content) ==> r == b
    ensures !AllWhitespace(content) ==> r == PushIdea(b, Idea(id, content, color))
  {
    TrimEmptyIffBlank(content);
    if Trim(content) == "" then b
    else PushIdea(b, Idea(id, content, color))
  }

  lemma AddIdeaPreservesValid(b: Board, content: string, id: string, color: string)
    requires Valid(b) && id !in b.ideas && color in StickyColors
    ensures Valid(AddIdea(b, content, id, color))
  {
    if !AllWhitespace(content) {
      SidebarPushValid(b, Idea(id, content, color));
    }
  }

  /** Storing a new idea and pushing its id onto the sidebar keeps the
      invariant. */
  lemma SidebarPushValid(b: Board, idea: Idea)
    requires Valid(b) && idea.id !in b.ideas
    ensures Valid(PushIdea(b, idea))
  {
    var id := idea.id;
    var sidebar := b.columns[Unassigned];
    var c := sidebar.(ideaIds := [id] + sidebar.ideaIds);
    var b' := b.(columns := b.columns[Unassigned := c]);
    var r := b'.(ideas := b.ideas[id := idea]);
    assert PushIdea(b, idea) == r;
    ShapedReplace(b, Unassigned, c);
    ShapedNewIdea(b', idea);
    SidebarPushPlaced(b, id);
    assert Placed(r) == Placed(b');
    assert multiset(r.ideas.Keys) == multiset(b.ideas.Keys) + multiset{id} by {
      assert r.ideas.Keys == b.ideas.Keys + {id};
    }
  }

  /** A new idea filed under its own id keeps the board well shaped. */
  lemma ShapedNewIdea(b: Board, idea: Idea)
    requires Shaped(b)
    ensures Shaped(b.(ideas := b.ideas[idea.id := idea]))
  {
    var ideas := b.ideas[idea.id := idea];
    forall k | k in ideas ensures ideas[k].id == k {
      if k != idea.id { assert ideas[k] == b.ideas[k]; }
    }
  }

  /** Pushing an id onto the sidebar counts it once more. */
  lemma SidebarPushPlaced(b: Board, id: string)
    requires Shaped(b)
    ensures var sidebar := b.columns[Unassigned];
      var b' := b.(columns := b.columns[Unassigned := sidebar.(ideaIds := [id] + sidebar.ideaIds)]);
      Unassigned in b'.columns && Placed(b') == Placed(b) + multiset{id}
  {
    var sidebar := b.columns[Unassigned];
    var c := sidebar.(ideaIds := [id] + sidebar.ideaIds);
    var b' := b.(columns := b.columns[Unassigned := c]);
    PlacedReplace(b, Unassigned, c);
    var m := multiset(sidebar.ideaIds);
    assert multiset(c.ideaIds) == m + multiset{id};
    assert Placed(b') + m == (Placed(b) + multiset{id}) + m;
    MultisetCancel(Placed(b'), Placed(b) + multiset{id}, m);
  }

  // ---------------------------------------------------------------------
  // addColumn
  // ---------------------------------------------------------------------

  /** Appends an empty, untitled quadrant under a fresh id; its background is
      the palette entry at its position. */
  function AddColumn(b: Board, id: string): (r: Board)
    requires id !in b.columns
    ensures r.columnOrder == b.columnOrder + [id]
    ensures r.columns.Keys == b.columns.Keys + {id}
    ensures r.columns[id] == Column(id, "", [], QuadrantBg(|b.columnOrder|))
    ensures forall k :: k in b.columns ==> r.columns[k] == b.columns[k]
    ensures r.ideas == b.ideas
  {
    var column := Column(id, "", [], QuadrantBg(|b.columnOrder|));
    b.(columns := b.columns[id := column], columnOrder := b.columnOrder + [id])
  }

  lemma AddColumnPreservesValid(b: Board, id: string)
    requires Valid(b) && id !in b.columns
    ensures Valid(AddColumn(b, id))
  {
    var r := AddColumn(b, id);
    assert id !in b.columnOrder && id != Unassigned;
    assert NoDup(r.columnOrder);
    ListedInAppend(b.columnOrder, [id], r.columns);
    ListedInFrame(b.columnOrder, b.columns, r.columns);
    assert ListedIn([id], r.columns) == multiset{};
  }

  // ---------------------------------------------------------------------
  // removeColumn
  // ---------------------------------------------------------------------

  /** Whether a removal goes ahead: there is more than one quadrant, and the
      quadrant is empty or the user confirmed. */
  function RemovalProceeds(b: Board, columnId: string, confirmed: bool): (proceeds: bool)
    requires columnId in b.columns
    ensures !proceeds <==> |b.columnOrder| <= 1 || (|b.columns[columnId].ideaIds| > 0 && !confirmed)
    ensures proceeds && !confirmed ==> b.columns[columnId].ideaIds == []
  {
    |b.columnOrder| > 1 && (|b.columns[columnId].ideaIds| == 0 || confirmed)
  }

  /** Removes a quadrant, moving its ideas, in order, to the end of the
      sidebar. Refused when it would leave no quadrant; a non-empty quadrant
      needs the user's confirmation. */
  function RemoveColumn(b: Board, columnId: string, confirmed: bool): (r: Board)
    requires Unassigned in b.columns && columnId in b.columns
    ensures |b.columnOrder| <= 1 ==> r == b
    ensures |b.columns[columnId].ideaIds| > 0 && !confirmed ==> r == b
    ensures RemovalProceeds(b, columnId, confirmed) ==>
              && r.ideas == b.ideas
              && multiset(r.columnOrder) == multiset(b.columnOrder)[columnId := 0]
              && (forall k :: k in r.columnOrder <==> k in b.columnOrder && k != columnId)
              && r.columns.Keys == b.columns.Keys - {columnId}
              && (forall k :: k in b.columns && k != columnId && k != Unassigned ==> r.columns[k] == b.columns[k])
    ensures RemovalProceeds(b, columnId, confirmed) && columnId != Unassigned ==>
              && r.columns[Unassigned].ideaIds == b.columns[Unassigned].ideaIds + b.columns[columnId].ideaIds
              && r.columns[Unassigned] == b.columns[Unassigned].(ideaIds := r.columns[Unassigned].ideaIds)
    ensures RemovalProceeds(b, columnId, confirmed) && NoDup(b.columnOrder) ==>
              forall i :: 0 <= i < |b.columnOrder| && b.columnOrder[i] == columnId ==>
                r.columnOrder == RemoveAt(b.columnOrder, i)
    ensures RemovalProceeds(b, columnId, confirmed) && columnId !in b.columnOrder ==>
              r.columnOrder == b.columnOrder
  {
    WithoutIsRemoveAtEach(b.columnOrder, columnId);
    WithoutAbsent(b.columnOrder, columnId);
    if |b.columnOrder| <= 1 then b
    else
      var column := b.columns[columnId];
      if |column.ideaIds| > 0 && !confirmed then b
      else
        var sidebar := b.columns[Unassigned];
        var columns := b.columns[Unassigned := sidebar.(ideaIds := sidebar.ideaIds + column.ideaIds)];
        b.(columns := columns - {columnId}, columnOrder := Without(b.columnOrder, columnId))
  }

  /** On a valid board a removal that goes ahead keeps every idea id on the
      board: the ids the quadrant held are now in the sidebar. */
  lemma RemoveColumnKeepsPlacedIds(b: Board, columnId: string, confirmed: bool)
    requires Valid(b) && columnId in b.columns && columnId != Unassigned
    requires RemovalProceeds(b, columnId, confirmed)
    ensures Shaped(RemoveColumn(b, columnId, confirmed))
    ensures Placed(RemoveColumn(b, columnId, confirmed)) == Placed(b)
  {
    var r := RemoveColumn(b, columnId, confirmed);
    var rest := Without(b.columnOrder, columnId);
    assert r.columnOrder == rest;
    assert columnId in b.columnOrder;
    forall k | k in r.columns ensures r.columns[k].id == k {
      if k != Unassigned { assert r.columns[k] == b.columns[k]; }
    }
    ListedInWithout(b.columnOrder, b.columns, columnId);
    ListedInFrame(rest, b.columns, r.columns);
    var u, m, l := multiset(b.columns[Unassigned].ideaIds), multiset(b.columns[columnId].ideaIds), ListedIn(rest, b.columns);
    assert multiset(r.columns[Unassigned].ideaIds) == u + m;
    assert Placed(r) == u + m + l;
  }

  lemma RemoveColumnPreservesValid(b: Board, columnId: string, confirmed: bool)
    requires Valid(b) && columnId in b.columns && columnId != Unassigned
    ensures Valid(RemoveColumn(b, columnId, confirmed))
  {
    if RemovalProceeds(b, columnId, confirmed) {
      RemoveColumnKeepsPlacedIds(b, columnId, confirmed);
    }
  }

  /** Adding a quadrant and then removing it gives back the board one started
      from, whatever the confirmation answer, when there was a quadrant
      before (otherwise the removal is refused). */
  lemma RemoveColumnUndoesAddColumn(b: Board, id: string, confirmed: bool)
    requires Valid(b) && id !in b.columns && |b.columnOrder| >= 1
    ensures RemoveColumn(AddColumn(b, id), id, confirmed) == b
  {
    assert id !in b.columnOrder && Unassigned in b.columns;
    UndoAddColumn(b, id, confirmed);
  }

  lemma UndoAddColumn(b: Board, id: string, confirmed: bool)
    requires Unassigned in b.columns && id !in b.columns && id !in b.columnOrder && |b.columnOrder| >= 1
    ensures RemoveColumn(AddColumn(b, id), id, confirmed) == b
  {
    var a := AddColumn(b, id);
    var sidebar := a.columns[Unassigned];
    var cols := a.columns[Unassigned := sidebar.(ideaIds := sidebar.ideaIds + a.columns[id].ideaIds)];
    assert sidebar.ideaIds + [] == sidebar.ideaIds;
    assert cols == a.columns;
    assert cols - {id} == b.columns;
    WithoutAppend(b.columnOrder, id);
  }

  /** Filtering out a name appended after a list that lacks it gives the list back. */
  lemma {:induction false} WithoutAppend(s: seq<string>, x: string)
    requires x !in s
    ensures Without(s + [x], x) == s
    decreases |s|
  {
    if |s| == 0 {
      assert [x][1..] == [];
    } else {
      assert (s + [x])[1..] == s[1..] + [x];
      WithoutAppend(s[1..], x);
      assert s == [s[0]] + s[1..];
    }
  }

  // ---------------------------------------------------------------------
  // updateColumnTitle
  // ---------------------------------------------------------------------

  /** Renames a column; nothing else changes. */
  function UpdateColumnTitle(b: Board, id: string, title: string): (r: Board)
    requires id in b.columns
    ensures r.columns.Keys == b.columns.Keys
    ensures r.columns[id].title == title
    ensures r.columns[id] == b.columns[id].(title := r.columns[id].title)
    ensures forall k :: k in b.columns && k != id ==> r.columns[k] == b.columns[k]
    ensures r.ideas == b.ideas && r.columnOrder == b.columnOrder
  {
    b.(columns := b.columns[id := b.columns[id].(title := title)])
  }

  lemma UpdateColumnTitlePreservesValid(b: Board, id: string, title: string)
    requires Valid(b) && id in b.columns
    ensures Valid(UpdateColumnTitle(b, id, title))
  {
    var c := b.columns[id].(title := title);
    ShapedReplace(b, id, c);
    PlacedReplace(b, id, c);
    var r := UpdateColumnTitle(b, id, title);
    MultisetCancel(Placed(r), Placed(b), multiset(c.ideaIds));
  }

  /** Renaming twice keeps only the second title, and renaming back to the
      old title restores the board. */
  lemma UpdateColumnTitleLastWins(b: Board, id: string, t1: string, t2: string)
    requires id in b.columns
    ensures UpdateColumnTitle(UpdateColumnTitle(b, id, t1), id, t2) == UpdateColumnTitle(b, id, t2)
    ensures UpdateColumnTitle(UpdateColumnTitle(b, id, t1), id, b.columns[id].title) == b
  {
  }
}

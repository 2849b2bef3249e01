/**
 The drag-and-drop reorder engine: the handler that runs when a drag ends.
 The drag library reports the dragged idea's id, where it was picked up and
 where (if anywhere) it was dropped; a drop moves the id within one list or
 from one list to another with array-splice semantics. The engine trusts
 the reported id to be the one at the pick-up position.
 */
module Reorder {
  import opened Types
  import opened Splice
  import opened BoardInvariant

  /** A position in a column's list, as the drag library reports it. */
  datatype DraggableLocation = DraggableLocation(droppableId: string, index: nat)

  /** The outcome of a drag; `destination` is missing when the idea was
      dropped outside every column. */
  datatype DropResult = DropResult(
    draggableId: string,
    source: DraggableLocation,
    destination: Option<DraggableLocation>)

  /** Whether the drop changes anything: it landed in a column, at a place
      other than the one it started from. */
  function IsMove(res: DropResult): (moves: bool)
    ensures moves <==> res.destination.Some? && res.destination.value != res.source
  {
    && res.destination.Some?
    && !(res.destination.value.droppableId == res.source.droppableId
         && res.destination.value.index == res.source.index)
  }

  /** The column under key `k` exists and carries `k` as its own id. */
  predicate KeyedAt(b: Board, k: string)
  {
    k in b.columns && b.columns[k].id == k
  }

  /** The reported id is the one at the pick-up position. */
  predicate ConsistentDrag(b: Board, res: DropResult)
    requires res.source.droppableId in b.columns
  {
    var ids := b.columns[res.source.droppableId].ideaIds;
    res.source.index < |ids| && ids[res.source.index] == res.draggableId
  }

  /** The drop handler. A move inside one list splices the element at the
      source index out and the dragged id in at the destination index; a
      move between lists splices out of the first and into the second. */
  function OnDragEnd(b: Board, res: DropResult): (r: Board)
    requires IsMove(res) ==>
               res.source.droppableId in b.columns && res.destination.value.droppableId in b.columns
    ensures !IsMove(res) ==> r == b
    ensures r.ideas == b.ideas && r.columnOrder == b.columnOrder
  {
    if !IsMove(res) then b
    else
      var src, dst := res.source, res.destination.value;
      var start, finish := b.columns[src.droppableId], b.columns[dst.droppableId];
      if src.droppableId == dst.droppableId then
        var removed := RemoveAt(start.ideaIds, src.index);
        var ideaIds := InsertAt(removed, dst.index, res.draggableId);
        b.(columns := b.columns[start.id := start.(ideaIds := ideaIds)])
      else
        var startIds := RemoveAt(start.ideaIds, src.index);
        var finishIds := InsertAt(finish.ideaIds, dst.index, res.draggableId);
        b.(columns := b.columns[start.id := start.(ideaIds := startIds)][finish.id := finish.(ideaIds := finishIds)])
  }

  /** A move within one list: the list keeps its other elements in order,
      the dragged id sits at the destination index (clamped to the end), and
      every other column is untouched. When the source index is in range the
      length is kept and the dragged id replaces the picked-up one in the
      multiset, so a consistent drop is a permutation. */
  lemma OnDragEndWithinColumn(b: Board, res: DropResult)
    requires IsMove(res) && res.destination.value.droppableId == res.source.droppableId
    requires KeyedAt(b, res.source.droppableId)
    ensures
      var r := OnDragEnd(b, res);
      var k, d := res.source.droppableId, res.draggableId;
      var si, di := res.source.index, res.destination.value.index;
      var before, after := b.columns[k].ideaIds, r.columns[k].ideaIds;
      && r.columns.Keys == b.columns.Keys
      && r.columns[k] == b.columns[k].(ideaIds := after)
      && (forall k' :: k' in b.columns && k' != k ==> r.columns[k'] == b.columns[k'])
      && |after| > 0 && after[Clamp(di, |after| - 1)] == d
      && RemoveAt(after, Clamp(di, |after| - 1)) == RemoveAt(before, si)
      && (si < |before| ==>
            && |after| == |before|
            && multiset(after) + multiset{before[si]} == multiset(before) + multiset{d})
      && (si < |before| && before[si] == d ==> multiset(after) == multiset(before))
  {
    var k := res.source.droppableId;
    var removed := RemoveAt(b.columns[k].ideaIds, res.source.index);
    RemoveInserted(removed, res.destination.value.index, res.draggableId);
  }

  /** A move between two lists: the source list loses the element at the
      source index (if there is one) and keeps the rest in order, the
      destination list gains the dragged id at the destination index (clamped
      to the end) and keeps the rest in order, and every other column is
      untouched. */
  lemma OnDragEndAcrossColumns(b: Board, res: DropResult)
    requires IsMove(res) && res.destination.value.droppableId != res.source.droppableId
    requires KeyedAt(b, res.source.droppableId) && KeyedAt(b, res.destination.value.droppableId)
    ensures
      var r := OnDragEnd(b, res);
      var s, f, d := res.source.droppableId, res.destination.value.droppableId, res.draggableId;
      var si, di := res.source.index, res.destination.value.index;
      var s0, s1 := b.columns[s].ideaIds, r.columns[s].ideaIds;
      var f0, f1 := b.columns[f].ideaIds, r.columns[f].ideaIds;
      && r.columns.Keys == b.columns.Keys
      && r.columns[s] == b.columns[s].(ideaIds := s1)
      && r.columns[f] == b.columns[f].(ideaIds := f1)
      && (forall k' :: k' in b.columns && k' != s && k' != f ==> r.columns[k'] == b.columns[k'])
      && (si >= |s0| ==> s1 == s0)
      && (si < |s0| ==>
            && |s1| == |s0| - 1
            && multiset(s1) + multiset{s0[si]} == multiset(s0)
            && InsertAt(s1, si, s0[si]) == s0)
      && |f1| == |f0| + 1
      && f1[Clamp(di, |f0|)] == d
      && multiset(f1) == multiset(f0) + multiset{d}
      && RemoveAt(f1, Clamp(di, |f0|)) == f0
  {
    var s, f := res.source.droppableId, res.destination.value.droppableId;
    RemoveInserted(b.columns[f].ideaIds, res.destination.value.index, res.draggableId);
    InsertRemoved(b.columns[s].ideaIds, res.source.index);
  }

  /** A consistent drop keeps the board invariant: the dragged idea leaves
      its old place and sits in exactly one place again. */
  lemma OnDragEndPreservesValid(b: Board, res: DropResult)
    requires Valid(b)
    requires IsMove(res) ==>
               && res.source.droppableId in b.columns && res.destination.value.droppableId in b.columns
               && ConsistentDrag(b, res)
    ensures Valid(OnDragEnd(b, res))
  {
    if IsMove(res) {
      var s, f, d := res.source.droppableId, res.destination.value.droppableId, res.draggableId;
      var r := OnDragEnd(b, res);
      var before := b.columns[s].ideaIds;
      if s == f {
        OnDragEndWithinColumn(b, res);
        var c := r.columns[s];
        assert r == b.(columns := b.columns[s := c]);
        ShapedReplace(b, s, c);
        PlacedReplace(b, s, c);
        MultisetCancel(Placed(r), Placed(b), multiset(before));
      } else {
        OnDragEndAcrossColumns(b, res);
        var cs, cf := r.columns[s], r.columns[f];
        var b1 := b.(columns := b.columns[s := cs]);
        assert r == b1.(columns := b1.columns[f := cf]);
        ShapedReplace(b, s, cs);
        PlacedReplace(b, s, cs);
        ShapedReplace(b1, f, cf);
        PlacedReplace(b1, f, cf);
        CrossMoveBalance(Placed(b), Placed(b1), Placed(r), multiset(before), multiset(cs.ideaIds),
                         multiset(b.columns[f].ideaIds), multiset(cf.ideaIds), d);
      }
    }
  }

  /** The bookkeeping of a move between lists: one copy of `d` leaves the
      source list and one arrives in the destination list. */
  lemma CrossMoveBalance(p0: multiset<string>, p1: multiset<string>, p2: multiset<string>,
                         s0: multiset<string>, s1: multiset<string>,
                         f0: multiset<string>, f1: multiset<string>, d: string)
    requires p1 + s0 == p0 + s1 && s1 + multiset{d} == s0
    requires p2 + f0 == p1 + f1 && f1 == f0 + multiset{d}
    ensures p2 == p0
  {
    MultisetCancel(p2, p1 + multiset{d}, f0);
    MultisetCancel(p1 + multiset{d}, p0, s1);
  }

  /** A board with one empty quadrant `q1` and ideas `a` and `b`, in that
      order, in the sidebar. */
  function TwoIdeaBoard(): Board
  {
    Board(
      map["a" := Idea("a", "A", "bg-yellow-200"), "b" := Idea("b", "B", "bg-blue-200")],
      map[Unassigned := UnassignedColumn.(ideaIds := ["a", "b"]),
          "q1" := Column("q1", "", [], QuadrantBg(0))],
      ["q1"])
  }

  lemma TwoIdeaBoardValid()
    ensures Valid(TwoIdeaBoard())
  {
    var board := TwoIdeaBoard();
    assert Shaped(board) by {
      assert board.columns.Keys == {Unassigned, "q1"};
      assert board.ideas.Keys == {"a", "b"};
    }
    assert ["q1"][1..] == [];
    assert ListedIn(["q1"], board.columns) == multiset{};
    assert multiset(board.columns[Unassigned].ideaIds) == multiset{"a", "b"};
    assert board.ideas.Keys == {"a", "b"};
    assert multiset(board.ideas.Keys) == multiset{"a", "b"};
  }

  /** The engine does not check the reported id: on the valid two-idea board,
      a drop onto `q1` that reports `a` but picks up at the position of `b`
      leaves `a` in two columns and `b` in none. */
  lemma InconsistentDragBreaksInvariant()
    ensures Valid(TwoIdeaBoard())
    ensures
      var res := DropResult("a", DraggableLocation(Unassigned, 1), Some(DraggableLocation("q1", 0)));
      var r := OnDragEnd(TwoIdeaBoard(), res);
      && !ConsistentDrag(TwoIdeaBoard(), res)
      && "a" in r.columns[Unassigned].ideaIds && "a" in r.columns["q1"].ideaIds
      && Placed(r)["b"] == 0 && "b" in r.ideas
      && !Valid(r)
  {
    TwoIdeaBoardValid();
    var board := TwoIdeaBoard();
    var res := DropResult("a", DraggableLocation(Unassigned, 1), Some(DraggableLocation("q1", 0)));
    var r := OnDragEnd(board, res);
    assert r.columns[Unassigned].ideaIds == ["a"];
    assert r.columns["q1"].ideaIds == ["a"];
    assert ["q1"][1..] == [];
    assert ListedIn(["q1"], r.columns) == multiset{"a"};
    assert Placed(r)["b"] == 0;
    assert multiset(r.ideas.Keys)["b"] == 1;
  }

  /** The same mistake within one list: on the two-idea board, a drop that
      reports `a` but picks up `b` from the sidebar's second place and puts
      it first leaves `a` twice in the sidebar and `b` nowhere. */
  lemma InconsistentDragWithinColumn()
    ensures
      var res := DropResult("a", DraggableLocation(Unassigned, 1), Some(DraggableLocation(Unassigned, 0)));
      var r := OnDragEnd(TwoIdeaBoard(), res);
      && !ConsistentDrag(TwoIdeaBoard(), res)
      && r.columns[Unassigned].ideaIds == ["a", "a"]
      && Placed(r)["b"] == 0 && "b" in r.ideas
      && !Valid(r)
  {
    var board := TwoIdeaBoard();
    var res := DropResult("a", DraggableLocation(Unassigned, 1), Some(DraggableLocation(Unassigned, 0)));
    var r := OnDragEnd(board, res);
    assert RemoveAt(["a", "b"], 1) == ["a"];
    assert InsertAt(["a"], 0, "a") == ["a", "a"];
    assert r.columns[Unassigned].ideaIds == ["a", "a"];
    assert r.columns["q1"].ideaIds == [];
    assert ["q1"][1..] == [];
    assert ListedIn(["q1"], r.columns) == multiset{};
    assert Placed(r)["b"] == 0;
    assert multiset(r.ideas.Keys)["b"] == 1;
  }
}

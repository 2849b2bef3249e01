/**
 The global invariant of a board snapshot: the quadrant order names exactly
 the non-sidebar columns, each once, and every idea id sits in exactly one
 column list, exactly once, while the lists hold nothing but idea ids.

 It is stated by counting: `Placed` is the multiset of all ids held by the
 sidebar and the quadrants, and a valid board has `Placed` equal to the key
 set of `ideas`. `ValidIffPointwise` shows this is the same as the
 column-by-column reading.
 */
module BoardInvariant {
  import opened Types
  import opened Splice

  /** Every id held by the columns that `order` names (names without a
      column contribute nothing). */
  ghost function ListedIn(order: seq<string>, cols: map<string, Column>): multiset<string>
  {
    if |order| == 0 then multiset{}
    else
      (if order[0] in cols then multiset(cols[order[0]].ideaIds) else multiset{})
      + ListedIn(order[1..], cols)
  }

  /** Every id held anywhere on the board: the sidebar plus the quadrants. */
  ghost function Placed(b: Board): multiset<string>
    requires Unassigned in b.columns
  {
    multiset(b.columns[Unassigned].ideaIds) + ListedIn(b.columnOrder, b.columns)
  }

  /** The structural part of the invariant: the sidebar exists and is not in
      the order, the order has no repeats and names exactly the other columns,
      and every record is stored under its own id. */
  ghost predicate Shaped(b: Board)
  {
    && Unassigned in b.columns
    && Unassigned !in b.columnOrder
    && NoDup(b.columnOrder)
    && (forall k :: k in b.columns <==> k == Unassigned || k in b.columnOrder)
    && (forall k :: k in b.columns ==> b.columns[k].id == k)
    && (forall k :: k in b.ideas ==> b.ideas[k].id == k)
  }

  /** The board invariant. */
  ghost predicate Valid(b: Board)
  {
    Shaped(b) && Placed(b) == multiset(b.ideas.Keys)
  }

  /** The invariant read column by column: lists hold only ideas, without
      repeats, no id is in two columns and every idea is in some column. */
  ghost predicate EachIdeaInExactlyOneColumn(b: Board)
  {
    && (forall k, x :: k in b.columns && x in b.columns[k].ideaIds ==> x in b.ideas)
    && (forall k :: k in b.columns ==> NoDup(b.columns[k].ideaIds))
    && (forall k1, k2, x ::
          (k1 in b.columns && k2 in b.columns && x in b.columns[k1].ideaIds && x in b.columns[k2].ideaIds)
          ==> k1 == k2)
    && (forall x :: x in b.ideas ==> exists k :: k in b.columns && x in b.columns[k].ideaIds)
  }

  // ---------------------------------------------------------------------
  // Facts about ListedIn
  // ---------------------------------------------------------------------

  /** `ListedIn` only looks at the lists of the columns the order names. */
  lemma {:induction false} ListedInFrame(order: seq<string>, c1: map<string, Column>, c2: map<string, Column>)
    requires forall k :: k in order ==> (k in c1 <==> k in c2)
    requires forall k :: k in order && k in c1 ==> c1[k].ideaIds == c2[k].ideaIds
    ensures ListedIn(order, c1) == ListedIn(order, c2)
    decreases |order|
  {
    if |order| > 0 {
      ListedInFrame(order[1..], c1, c2);
    }
  }

  lemma {:induction false} ListedInAppend(o1: seq<string>, o2: seq<string>, cols: map<string, Column>)
    ensures ListedIn(o1 + o2, cols) == ListedIn(o1, cols) + ListedIn(o2, cols)
    decreases |o1|
  {
    if |o1| > 0 {
      assert (o1 + o2)[1..] == o1[1..] + o2;
      ListedInAppend(o1[1..], o2, cols);
    } else {
      assert o1 + o2 == o2;
    }
  }

  /** Taking one named column out of the order takes exactly its list out of
      the multiset. */
  lemma {:induction false} ListedInWithout(order: seq<string>, cols: map<string, Column>, k: string)
    requires NoDup(order) && k in order && k in cols
    ensures ListedIn(Without(order, k), cols) + multiset(cols[k].ideaIds) == ListedIn(order, cols)
    decreases |order|
  {
    assert order == [order[0]] + order[1..];
    assert NoDup(order[1..]);
    if order[0] == k {
      assert k !in order[1..];
      WithoutAbsent(order[1..], k);
    } else {
      ListedInWithout(order[1..], cols, k);
      var rest := Without(order[1..], k);
      assert Without(order, k) == [order[0]] + rest;
      assert ([order[0]] + rest)[1..] == rest;
    }
  }

  /** Replacing the column under a name that occurs once in the order swaps
      its list's ids for the new list's ids. */
  lemma ListedInReplace(order: seq<string>, cols: map<string, Column>, k: string, c: Column)
    requires NoDup(order) && k in order && k in cols
    ensures ListedIn(order, cols[k := c]) + multiset(cols[k].ideaIds)
         == ListedIn(order, cols) + multiset(c.ideaIds)
  {
    var cols' := cols[k := c];
    var rest := Without(order, k);
    ListedInWithout(order, cols, k);
    ListedInWithout(order, cols', k);
    ListedInFrame(rest, cols, cols');
  }

  /** The ids of a named column are among those `ListedIn` counts. */
  lemma {:induction false} ListedInContains(order: seq<string>, cols: map<string, Column>, k: string)
    requires k in order && k in cols
    ensures multiset(cols[k].ideaIds) <= ListedIn(order, cols)
    decreases |order|
  {
    if order[0] != k {
      ListedInContains(order[1..], cols, k);
    }
  }

  /** An id that `ListedIn` counts belongs to some named column. */
  lemma {:induction false} ListedInWitness(order: seq<string>, cols: map<string, Column>, x: string)
    requires x in ListedIn(order, cols)
    ensures exists k :: k in order && k in cols && x in cols[k].ideaIds
    decreases |order|
  {
    if order[0] in cols && x in multiset(cols[order[0]].ideaIds) {
      assert order[0] in order;
    } else {
      ListedInWitness(order[1..], cols, x);
      var k :| k in order[1..] && k in cols && x in cols[k].ideaIds;
      assert k in order;
    }
  }

  /** An id no named column holds is not counted. */
  lemma {:induction false} ListedInAbsent(order: seq<string>, cols: map<string, Column>, x: string)
    requires forall k :: k in order && k in cols ==> x !in cols[k].ideaIds
    ensures ListedIn(order, cols)[x] == 0
    decreases |order|
  {
    if |order| > 0 {
      assert order[0] in order;
      ListedInAbsent(order[1..], cols, x);
    }
  }

  /** Replacing one column of a well-shaped board keeps it well shaped. */
  lemma ShapedReplace(b: Board, k: string, c: Column)
    requires Shaped(b) && k in b.columns && c.id == k
    ensures Shaped(b.(columns := b.columns[k := c]))
  {
    var cols' := b.columns[k := c];
    assert cols'.Keys == b.columns.Keys;
    forall k' | k' in cols' ensures cols'[k'].id == k' {
      if k' != k { assert cols'[k'] == b.columns[k']; }
    }
  }

  /** Replacing one column of a well-shaped board swaps its ids for the new
      column's ids in `Placed`. */
  lemma PlacedReplace(b: Board, k: string, c: Column)
    requires Shaped(b) && k in b.columns
    ensures Unassigned in b.columns[k := c]
    ensures Placed(b.(columns := b.columns[k := c])) + multiset(b.columns[k].ideaIds)
         == Placed(b) + multiset(c.ideaIds)
  {
    PlacedReplaceAt(b.columns, b.columnOrder, k, c);
  }

  lemma PlacedReplaceAt(cols: map<string, Column>, order: seq<string>, k: string, c: Column)
    requires Unassigned in cols && Unassigned !in order && NoDup(order)
    requires k in cols && (k == Unassigned || k in order)
    ensures multiset(cols[k := c][Unassigned].ideaIds) + ListedIn(order, cols[k := c]) + multiset(cols[k].ideaIds)
         == multiset(cols[Unassigned].ideaIds) + ListedIn(order, cols) + multiset(c.ideaIds)
  {
    var cols' := cols[k := c];
    if k == Unassigned {
      ListedInFrame(order, cols, cols');
    } else {
      assert cols'[Unassigned] == cols[Unassigned];
      ListedInReplace(order, cols, k, c);
      var u, m, m' := multiset(cols[Unassigned].ideaIds), multiset(cols[k].ideaIds), multiset(c.ideaIds);
      var l, l' := ListedIn(order, cols), ListedIn(order, cols');
      assert l' + m == l + m';
      assert u + l' + m == u + (l' + m);
    }
  }

  /** Equal multisets remain equal once a common part is taken away. */
  lemma MultisetCancel(a: multiset<string>, b: multiset<string>, m: multiset<string>)
    requires a + m == b + m
    ensures a == b
  {
    assert forall x :: a[x] == (a + m)[x] - m[x];
    assert forall x :: b[x] == (b + m)[x] - m[x];
  }

  // ---------------------------------------------------------------------
  // The two readings of the invariant agree
  // ---------------------------------------------------------------------

  /** A sequence in which two positions hold the same value counts it twice. */
  lemma RepeatCountsTwice(s: seq<string>, i: nat, j: nat)
    requires i < j < |s| && s[i] == s[j]
    ensures multiset(s)[s[i]] >= 2
  {
    assert s == s[..j] + [s[j]] + s[j + 1..];
    assert s[i] in s[..j];
  }

  /** The id `x` counts once in `Placed` if it is in exactly one column,
      once there, and not at all if no column holds it. */
  lemma PlacedCount(b: Board, x: string)
    requires Shaped(b)
    ensures (forall k :: k in b.columns ==> x !in b.columns[k].ideaIds) ==> Placed(b)[x] == 0
    ensures forall k :: k in b.columns && x in b.columns[k].ideaIds ==> multiset(b.columns[k].ideaIds) <= Placed(b)
  {
    if forall k :: k in b.columns ==> x !in b.columns[k].ideaIds {
      ListedInAbsent(b.columnOrder, b.columns, x);
    }
    forall k | k in b.columns && x in b.columns[k].ideaIds
      ensures multiset(b.columns[k].ideaIds) <= Placed(b)
    {
      if k != Unassigned {
        ListedInContains(b.columnOrder, b.columns, k);
      }
    }
  }

  /** A column's ids are counted in `Placed`. */
  lemma ColumnIdsPlaced(b: Board, k: string)
    requires Shaped(b) && k in b.columns
    ensures multiset(b.columns[k].ideaIds) <= Placed(b)
  {
    if k != Unassigned {
      ListedInContains(b.columnOrder, b.columns, k);
    }
  }

  /** Two different columns' ids are both counted in `Placed`. */
  lemma PlacedTwoColumns(b: Board, k1: string, k2: string)
    requires Shaped(b) && k1 in b.columns && k2 in b.columns && k1 != k2
    ensures multiset(b.columns[k1].ideaIds) + multiset(b.columns[k2].ideaIds) <= Placed(b)
  {
    if k1 == Unassigned {
      ListedInContains(b.columnOrder, b.columns, k2);
    } else if k2 == Unassigned {
      ListedInContains(b.columnOrder, b.columns, k1);
    } else {
      ListedInWithout(b.columnOrder, b.columns, k1);
      assert k2 in Without(b.columnOrder, k1);
      ListedInContains(Without(b.columnOrder, k1), b.columns, k2);
    }
  }

  /** The counting invariant and the column-by-column reading are equivalent
      on a well-shaped board. */
  lemma ValidIffPointwise(b: Board)
    requires Shaped(b)
    ensures Valid(b) <==> EachIdeaInExactlyOneColumn(b)
  {
    if Valid(b) {
      ValidImpliesPointwise(b);
    }
    if EachIdeaInExactlyOneColumn(b) {
      PointwiseImpliesValid(b);
    }
  }

  lemma ValidImpliesPointwise(b: Board)
    requires Valid(b)
    ensures EachIdeaInExactlyOneColumn(b)
  {
    var cols := b.columns;
    forall k, x | k in cols && x in cols[k].ideaIds
      ensures x in b.ideas
    {
      ColumnIdsPlaced(b, k);
      assert x in multiset(cols[k].ideaIds);
      assert x in multiset(b.ideas.Keys);
    }
    forall k | k in cols
      ensures NoDup(cols[k].ideaIds)
    {
      var s := cols[k].ideaIds;
      if !NoDup(s) {
        var i, j :| 0 <= i < j < |s| && s[i] == s[j];
        RepeatCountsTwice(s, i, j);
        ColumnIdsPlaced(b, k);
        assert false;
      }
    }
    forall k1, k2, x | k1 in cols && k2 in cols && x in cols[k1].ideaIds && x in cols[k2].ideaIds
      ensures k1 == k2
    {
      if k1 != k2 {
        assert multiset(cols[k1].ideaIds)[x] >= 1 && multiset(cols[k2].ideaIds)[x] >= 1;
        assert multiset(b.ideas.Keys)[x] <= 1;
        PlacedTwoColumns(b, k1, k2);
        assert false;
      }
    }
    forall x | x in b.ideas
      ensures exists k :: k in cols && x in cols[k].ideaIds
    {
      assert x in Placed(b);
      if x !in cols[Unassigned].ideaIds {
        ListedInWitness(b.columnOrder, cols, x);
      }
    }
  }

  lemma PointwiseImpliesValid(b: Board)
    requires Shaped(b) && EachIdeaInExactlyOneColumn(b)
    ensures Valid(b)
  {
    var cols := b.columns;
    forall x
      ensures Placed(b)[x] == multiset(b.ideas.Keys)[x]
    {
      PlacedCount(b, x);
      if x in b.ideas {
        var k :| k in cols && x in cols[k].ideaIds;
        OnceInNoDup(cols[k].ideaIds, x);
        if k == Unassigned {
          ListedInAbsent(b.columnOrder, cols, x);
        } else {
          ListedInWithout(b.columnOrder, cols, k);
          forall k' | k' in Without(b.columnOrder, k) && k' in cols
            ensures x !in cols[k'].ideaIds
          {
          }
          ListedInAbsent(Without(b.columnOrder, k), cols, x);
          assert x !in cols[Unassigned].ideaIds;
        }
      }
    }
    assert Placed(b) == multiset(b.ideas.Keys);
  }

  /** In a list without repeats a member is counted once. */
  lemma {:induction false} OnceInNoDup(s: seq<string>, x: string)
    requires NoDup(s) && x in s
    ensures multiset(s)[x] == 1
    decreases |s|
  {
    assert s == [s[0]] + s[1..];
    if s[0] == x {
      assert x !in s[1..];
    } else {
      OnceInNoDup(s[1..], x);
    }
  }
}

/**
 The array operations the board handlers use, on immutable sequences:
 `splice(i, 1)` (remove one element), `splice(i, 0, x)` (insert one element)
 and `filter(y => y !== x)`. A start index past the end is clamped to the
 length, as JavaScript's `Array.prototype.splice` does; indexes are never
 negative here, since they come from list positions.
 */
module Splice {

  /** No element occurs twice. */
  predicate NoDup<T(==)>(s: seq<T>)
  {
    forall i, j :: 0 <= i < j < |s| ==> s[i] != s[j]
  }

  /** `s.splice(i, 1)`: drops the element at `i`; nothing happens when `i` is
      past the end. */
  function RemoveAt<T>(s: seq<T>, i: nat): (r: seq<T>)
    ensures i >= |s| ==> r == s
    ensures i < |s| ==> |r| == |s| - 1 && multiset(r) + multiset{s[i]} == multiset(s)
    ensures i < |s| ==> forall k :: 0 <= k < |r| ==> r[k] == (if k < i then s[k] else s[k + 1])
  {
    if i < |s| then
      assert s == s[..i] + [s[i]] + s[i + 1..];
      s[..i] + s[i + 1..]
    else s
  }

  /** `s.splice(i, 0, x)`: puts `x` at position `min(i, |s|)`, shifting the
      elements from there one place up. */
  function InsertAt<T>(s: seq<T>, i: nat, x: T): (r: seq<T>)
    ensures |r| == |s| + 1
    ensures r[Clamp(i, |s|)] == x
    ensures multiset(r) == multiset(s) + multiset{x}
    ensures forall k :: 0 <= k < |r| && k != Clamp(i, |s|) ==>
              r[k] == (if k < Clamp(i, |s|) then s[k] else s[k - 1])
  {
    var k := Clamp(i, |s|);
    assert s == s[..k] + s[k..];
    s[..k] + [x] + s[k..]
  }

  /** Where `splice` actually starts for a start index `i` on a list of length `n`. */
  function Clamp(i: nat, n: nat): (k: nat)
    ensures k <= n && (k == i || k == n)
    ensures i <= n ==> k == i
  {
    if i <= n then i else n
  }

  /** `s.filter(y => y !== x)`: keeps, in order, every element other than `x`. */
  function Without<T(==,!new)>(s: seq<T>, x: T): (r: seq<T>)
    ensures multiset(r) == multiset(s)[x := 0]
    ensures forall y :: y in r <==> y in s && y != x
    ensures NoDup(s) ==> NoDup(r)
    ensures |r| <= |s|
  {
    if |s| == 0 then []
    else
      var rest := Without(s[1..], x);
      assert s == [s[0]] + s[1..];
      if s[0] == x then rest
      else
        assert NoDup(s) ==> NoDup(s[1..]) && s[0] !in s[1..];
        [s[0]] + rest
  }

  /** Filtering out an element that occurs once is the same as splicing it
      out at its position: the other elements keep their order. */
  lemma {:induction false} WithoutIsRemoveAt<T(!new)>(s: seq<T>, i: nat)
    requires NoDup(s) && i < |s|
    ensures Without(s, s[i]) == RemoveAt(s, i)
    decreases i
  {
    if i == 0 {
      WithoutAbsent(s[1..], s[0]);
    } else {
      WithoutIsRemoveAt(s[1..], i - 1);
      assert s[1..][i - 1] == s[i];
      assert s[1..][..i - 1] + s[1..][i..] == s[1..i] + s[i + 1..];
      assert s[..i] + s[i + 1..] == [s[0]] + (s[1..i] + s[i + 1..]);
    }
  }

  /** Filtering a one-element list keeps the element exactly when it differs
      from `x`. */
  lemma WithoutSingleton<T(!new)>(y: T, x: T)
    ensures Without([y], x) == if y == x then [] else [y]
  {
    assert [y][1..] == [];
  }

  /** Filtering works piece by piece: the kept elements of `a` come before the
      kept elements of `b`, so the order of what stays is the original order. */
  lemma {:induction false} WithoutConcat<T(!new)>(a: seq<T>, b: seq<T>, x: T)
    ensures Without(a + b, x) == Without(a, x) + Without(b, x)
    decreases |a|
  {
    if |a| == 0 {
      assert a + b == b;
    } else {
      assert (a + b)[0] == a[0] && (a + b)[1..] == a[1..] + b;
      WithoutConcat(a[1..], b, x);
    }
  }

  /** On a repeat-free list, filtering out `x` splices it out wherever it
      sits. */
  lemma WithoutIsRemoveAtEach<T(!new)>(s: seq<T>, x: T)
    ensures NoDup(s) ==> forall i :: 0 <= i < |s| && s[i] == x ==> Without(s, x) == RemoveAt(s, i)
  {
    if NoDup(s) {
      forall i | 0 <= i < |s| && s[i] == x ensures Without(s, x) == RemoveAt(s, i) {
        WithoutIsRemoveAt(s, i);
      }
    }
  }

  /** Filtering out an element that does not occur changes nothing. */
  lemma {:induction false} WithoutAbsent<T(!new)>(s: seq<T>, x: T)
    ensures x !in s ==> Without(s, x) == s
    decreases |s|
  {
    if |s| > 0 && x !in s {
      WithoutAbsent(s[1..], x);
      assert s == [s[0]] + s[1..];
    }
  }

  /** Splicing out the element just spliced in gives the list back. */
  lemma RemoveInserted<T>(s: seq<T>, i: nat, x: T)
    ensures RemoveAt(InsertAt(s, i, x), Clamp(i, |s|)) == s
  {
    var k := Clamp(i, |s|);
    var t := InsertAt(s, i, x);
    assert t[..k] == s[..k];
    assert t[k + 1..] == s[k..];
    assert s == s[..k] + s[k..];
  }

  /** Splicing an element back in where it was spliced out gives the list back. */
  lemma InsertRemoved<T>(s: seq<T>, i: nat)
    ensures i < |s| ==> InsertAt(RemoveAt(s, i), i, s[i]) == s
  {
    if i >= |s| { return; }
    var t := RemoveAt(s, i);
    assert t[..i] == s[..i];
    assert t[i..] == s[i + 1..];
    assert s == s[..i] + [s[i]] + s[i + 1..];
  }
}

/** Python list operations on sequences. */
module Lists {

  /** The index `list.index(x)` returns: the first occurrence of `x`. */
  function FirstIndex<T(==)>(s: seq<T>, x: T): (i: nat)
    requires x in s
    ensures i < |s| && s[i] == x && x !in s[..i]
  {
    if s[0] == x then 0
    else
      var i := FirstIndex(s[1..], x) + 1;
      assert s[..i] == [s[0]] + s[1..][..i - 1];
      i
  }

  /** `list.remove(x)`, which Python only allows when `x` is present. */
  function RemoveFirst<T(==)>(s: seq<T>, x: T): (r: seq<T>)
    requires x in s
    ensures |r| == |s| - 1
  {
    if s[0] == x then s[1..] else [s[0]] + RemoveFirst(s[1..], x)
  }

  /** `remove` deletes exactly the first occurrence of `x`; everything before
      and after it stays, in the same order. */
  lemma {:induction false} RemoveFirstAt<T>(s: seq<T>, x: T)
    requires x in s
    ensures RemoveFirst(s, x) == s[..FirstIndex(s, x)] + s[FirstIndex(s, x) + 1..]
  {
    if s[0] != x {
      var tail := s[1..];
      RemoveFirstAt(tail, x);
      var j := FirstIndex(tail, x);
      assert FirstIndex(s, x) == j + 1;
      calc {
        RemoveFirst(s, x);
        [s[0]] + RemoveFirst(tail, x);
        [s[0]] + (tail[..j] + tail[j + 1..]);
        ([s[0]] + tail[..j]) + tail[j + 1..];
        { assert s[..j + 1] == [s[0]] + tail[..j];
          assert s[j + 2..] == tail[j + 1..]; }
        s[..j + 1] + s[j + 2..];
      }
    } else {
      assert FirstIndex(s, x) == 0;
      assert s[..0] + s[1..] == s[1..];
    }
  }

  /** `remove` takes away one copy of `x` and nothing else. */
  lemma {:induction false} RemoveFirstMultiset<T>(s: seq<T>, x: T)
    requires x in s
    ensures multiset(RemoveFirst(s, x)) == multiset(s) - multiset{x}
  {
    if s[0] == x {
      assert s == [x] + s[1..];
    } else {
      RemoveFirstMultiset(s[1..], x);
      assert s == [s[0]] + s[1..];
    }
  }

  /** Putting back in front the element `remove` took out restores the
      multiset of the list. */
  lemma RemoveFirstThenPrepend(s: seq<int>, x: int, front: seq<int>, last: int)
    requires x in s
    requires multiset(front + [last]) == multiset(RemoveFirst(s, x))
    ensures multiset([x] + front + [last]) == multiset(s)
  {
    RemoveFirstMultiset(s, x);
    assert [x] + front + [last] == [x] + (front + [last]);
  }

  /** `remove` keeps every element other than the one removed. */
  lemma RemoveFirstKeepsOthers<T>(s: seq<T>, x: T)
    requires x in s
    ensures forall y :: y in s && y != x ==> y in RemoveFirst(s, x)
  {
    RemoveFirstMultiset(s, x);
    forall y | y in s && y != x
      ensures y in RemoveFirst(s, x)
    {
      assert y in multiset(s);
      assert y in multiset(RemoveFirst(s, x));
    }
  }

  /** What `remove` leaves is drawn from the original list. */
  lemma RemoveFirstSubset<T>(s: seq<T>, x: T)
    requires x in s
    ensures forall y :: y in RemoveFirst(s, x) ==> y in s
  {
    RemoveFirstMultiset(s, x);
    forall y | y in RemoveFirst(s, x)
      ensures y in s
    {
      assert y in multiset(RemoveFirst(s, x));
    }
  }

  /** `list(range(lo, hi))`. */
  function Range(lo: int, hi: int): (r: seq<int>)
    ensures |r| == if lo <= hi then hi - lo else 0
    ensures forall i :: 0 <= i < |r| ==> r[i] == lo + i
    decreases hi - lo
  {
    if lo >= hi then [] else [lo] + Range(lo + 1, hi)
  }

  predicate Increasing(s: seq<int>) {
    forall i, j :: 0 <= i < j < |s| ==> s[i] < s[j]
  }

  /** Removing an element from an increasing list leaves it increasing. */
  lemma RemoveFirstIncreasing(s: seq<int>, x: int)
    requires x in s && Increasing(s)
    ensures Increasing(RemoveFirst(s, x))
  {
    RemoveFirstAt(s, x);
  }

  /** The positions of `s` whose element satisfies `f`. */
  function IndicesWhere<T>(s: seq<T>, f: T -> bool): set<nat> {
    set i: nat | i < |s| && f(s[i])
  }

  lemma IndicesWhereSnoc<T>(s: seq<T>, f: T -> bool)
    requires s != []
    ensures var n := |s| - 1;
            IndicesWhere(s, f) == IndicesWhere(s[..n], f) + (if f(s[n]) then {n} else {})
  {
    var n := |s| - 1;
    var front := s[..n];
    forall i | i in IndicesWhere(s, f)
      ensures i in IndicesWhere(front, f) + (if f(s[n]) then {n} else {})
    {
      if i < n {
        assert front[i] == s[i];
      }
    }
  }

  predicate Distinct<T(==)>(s: seq<T>) {
    forall i, j :: 0 <= i < j < |s| ==> s[i] != s[j]
  }

  /** An element of a list without repetitions occurs in it at most once. */
  lemma {:induction false} DistinctOnce<T>(s: seq<T>, x: T)
    requires Distinct(s)
    ensures multiset(s)[x] <= 1
  {
    if s != [] {
      assert s == [s[0]] + s[1..];
      DistinctOnce(s[1..], x);
      if s[0] == x {
        assert x !in s[1..];
      }
    }
  }

  /** A permutation has the same length and the same elements. */
  lemma PermutationSameElements<T>(a: seq<T>, b: seq<T>)
    requires multiset(a) == multiset(b)
    ensures |a| == |b|
    ensures forall x :: x in a <==> x in b
  {
    assert |multiset(a)| == |a| && |multiset(b)| == |b|;
    forall x
      ensures x in a <==> x in b
    {
      assert x in a <==> x in multiset(a);
      assert x in b <==> x in multiset(b);
    }
  }

  /** A permutation of a list without repetitions has none either. */
  lemma PermutationDistinct<T>(a: seq<T>, b: seq<T>)
    requires multiset(a) == multiset(b) && Distinct(b)
    ensures Distinct(a)
  {
    forall i, j | 0 <= i < j < |a|
      ensures a[i] != a[j]
    {
      if a[i] == a[j] {
        var x := a[i];
        assert a == a[..i] + [x] + a[i + 1..j] + [x] + a[j + 1..];
        assert multiset(a)[x] >= 2;
        DistinctOnce(b, x);
      }
    }
  }

  /** A permutation of a list without repetitions, split into a front and a
      last element: the front has no repetitions either, and the last element
      is exactly the one member of `universe` the front lacks. */
  lemma PermutationSplitLast<T>(front: seq<T>, last: T, universe: seq<T>)
    requires multiset(front + [last]) == multiset(universe) && Distinct(universe)
    ensures |front| == |universe| - 1 && Distinct(front) && last in universe
    ensures forall x :: x in universe ==> (x !in front <==> x == last)
  {
    var all := front + [last];
    PermutationSameElements(all, universe);
    PermutationDistinct(all, universe);
    assert last in all;
    forall i | 0 <= i < |front|
      ensures front[i] != last
    {
      assert all[i] == front[i] && all[|front|] == last;
    }
    forall x | x in universe
      ensures x !in front <==> x == last
    {
      assert x in all;
    }
    forall i, j | 0 <= i < j < |front|
      ensures front[i] != front[j]
    {
      assert all[i] == front[i] && all[j] == front[j];
    }
  }

  /** The elements of a list, as a set. */
  function Elements<T>(s: seq<T>): set<T> {
    set x | x in s
  }

  /** A list without repetitions has as many elements as its length. */
  lemma {:induction false} DistinctElements<T>(s: seq<T>)
    requires Distinct(s)
    ensures |Elements(s)| == |s|
  {
    if s != [] {
      DistinctElements(s[1..]);
      assert Elements(s) == {s[0]} + Elements(s[1..]);
      assert s[0] !in Elements(s[1..]);
    }
  }

  /** Pigeonhole: a list of distinct naturals below `n` has at most `n`
      elements. */
  lemma DistinctBelow(s: seq<int>, n: nat)
    requires Distinct(s) && forall t :: 0 <= t < |s| ==> 0 <= s[t] < n
    ensures |s| <= n
  {
    var range := Range(0, n);
    DistinctElements(s);
    DistinctElements(range);
    forall x | x in Elements(s)
      ensures x in Elements(range)
    {
      assert range[x] == x;
    }
    assert Elements(range) == Elements(s) + (Elements(range) - Elements(s));
  }
}

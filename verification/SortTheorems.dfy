/** The merge sort is the stable sort: sorted, a permutation that keeps ties in order, and the
    only such sequence; and merging sorted parts is sorting the whole. */
module SortTheorems {
  import opened SortModel

  // ---- merging ----

  lemma {:induction false} MergeElements<T>(left: seq<T>, right: seq<T>, cmp: (T, T) -> int)
    ensures multiset(Merge(left, right, cmp)) == multiset(left) + multiset(right)
  {
    if left == [] || right == [] {
    } else if cmp(left[0], right[0]) <= 0 {
      MergeElements(left[1..], right, cmp);
      MultisetCons(left);
      MultisetCons(Merge(left, right, cmp));
      assert Merge(left, right, cmp)[1..] == Merge(left[1..], right, cmp);
    } else {
      MergeElements(left, right[1..], cmp);
      MultisetCons(right);
      MultisetCons(Merge(left, right, cmp));
      assert Merge(left, right, cmp)[1..] == Merge(left, right[1..], cmp);
    }
  }

  lemma MultisetCons<T>(s: seq<T>)
    requires s != []
    ensures multiset(s) == multiset{s[0]} + multiset(s[1..])
  {
    assert s == [s[0]] + s[1..];
  }

  lemma InMultiset<T>(s: seq<T>, x: T)
    ensures x in s <==> x in multiset(s)
  {
  }

  /** A lower bound of both parts is one of the merged sequence. */
  lemma MergeBelow<T(!new)>(x: T, left: seq<T>, right: seq<T>, cmp: (T, T) -> int)
    requires forall y :: y in left ==> cmp(x, y) <= 0
    requires forall y :: y in right ==> cmp(x, y) <= 0
    ensures forall y :: y in Merge(left, right, cmp) ==> cmp(x, y) <= 0
  {
    MergeElements(left, right, cmp);
    var m := Merge(left, right, cmp);
    forall y | y in m ensures cmp(x, y) <= 0 {
      assert y in multiset(m);
      assert y in multiset(left) || y in multiset(right);
    }
  }

  lemma SortedTail<T(!new)>(s: seq<T>, cmp: (T, T) -> int)
    requires s != [] && Sorted(s, cmp)
    ensures Sorted(s[1..], cmp) && forall y :: y in s[1..] ==> cmp(s[0], y) <= 0
  {
    assert forall i :: 0 <= i < |s| - 1 ==> s[1..][i] == s[i + 1];
  }

  lemma SortedCons<T(!new)>(x: T, s: seq<T>, cmp: (T, T) -> int)
    requires Sorted(s, cmp) && forall y :: y in s ==> cmp(x, y) <= 0
    ensures Sorted([x] + s, cmp)
  {
    var r := [x] + s;
    forall i, j | 0 <= i < j < |r| ensures cmp(r[i], r[j]) <= 0 {
      assert r[j] == s[j - 1];
      if i > 0 { assert r[i] == s[i - 1]; }
    }
  }

  lemma {:induction false} MergeSorted<T(!new)>(left: seq<T>, right: seq<T>, cmp: (T, T) -> int, xs: set<T>)
    requires Orders(cmp, xs) && Elements(left) <= xs && Elements(right) <= xs
    requires Sorted(left, cmp) && Sorted(right, cmp)
    ensures Sorted(Merge(left, right, cmp), cmp)
  {
    if left == [] || right == [] {
    } else if cmp(left[0], right[0]) <= 0 {
      SortedTail(left, cmp);
      SortedTail(right, cmp);
      assert left[0] in Elements(left) && right[0] in Elements(right);
      assert forall y :: y in left[1..] ==> y in Elements(left);
      forall y | y in right ensures cmp(left[0], y) <= 0 {
        assert y in Elements(right);
        assert y == right[0] || y in right[1..];
      }
      MergeSorted(left[1..], right, cmp, xs);
      MergeBelow(left[0], left[1..], right, cmp);
      SortedCons(left[0], Merge(left[1..], right, cmp), cmp);
    } else {
      SortedTail(left, cmp);
      SortedTail(right, cmp);
      assert left[0] in Elements(left) && right[0] in Elements(right);
      assert forall y :: y in right[1..] ==> y in Elements(right);
      forall y | y in left ensures cmp(right[0], y) <= 0 {
        assert y in Elements(left);
        assert y == left[0] || y in left[1..];
      }
      MergeSorted(left, right[1..], cmp, xs);
      MergeBelow(right[0], left, right[1..], cmp);
      SortedCons(right[0], Merge(left, right[1..], cmp), cmp);
    }
  }

  lemma {:induction false} ClassNone<T(!new)>(s: seq<T>, x: T, cmp: (T, T) -> int)
    requires forall y :: y in s ==> !Ties(x, y, cmp)
    ensures Class(s, x, cmp) == []
  {
    if s != [] {
      ClassNone(s[1..], x, cmp);
    }
  }

  /** Ties keep their order: first those of the left part, then those of the right part. */
  lemma {:induction false} MergeClass<T(!new)>(left: seq<T>, right: seq<T>, x: T, cmp: (T, T) -> int, xs: set<T>)
    requires Orders(cmp, xs) && Elements(left) <= xs && Elements(right) <= xs && x in xs
    requires Sorted(left, cmp)
    ensures Class(Merge(left, right, cmp), x, cmp) == Class(left, x, cmp) + Class(right, x, cmp)
  {
    if left == [] || right == [] {
    } else if cmp(left[0], right[0]) <= 0 {
      SortedTail(left, cmp);
      assert forall y :: y in left[1..] ==> y in Elements(left);
      MergeClass(left[1..], right, x, cmp, xs);
      assert Merge(left, right, cmp)[1..] == Merge(left[1..], right, cmp);
    } else {
      assert left[0] in Elements(left) && right[0] in Elements(right);
      assert forall y :: y in right[1..] ==> y in Elements(right);
      MergeClass(left, right[1..], x, cmp, xs);
      assert Merge(left, right, cmp)[1..] == Merge(left, right[1..], cmp);
      if Ties(x, right[0], cmp) {
        LaterDoNotTie(left, right[0], x, cmp, xs);
        ClassNone(left, x, cmp);
      }
    }
  }

  /** What sorts strictly before a sorted sequence ties with none of it. */
  lemma LaterDoNotTie<T(!new)>(s: seq<T>, r: T, x: T, cmp: (T, T) -> int, xs: set<T>)
    requires Orders(cmp, xs) && Elements(s) <= xs && r in xs && x in xs
    requires Sorted(s, cmp) && s != [] && cmp(s[0], r) > 0 && Ties(x, r, cmp)
    ensures forall y :: y in s ==> !Ties(x, y, cmp)
  {
    var first := s[0];
    forall y | y in s ensures !Ties(x, y, cmp) {
      var i :| 0 <= i < |s| && s[i] == y;
      assert s[0] in Elements(s) && y in Elements(s);
      assert cmp(s[0], y) <= 0 by {
        assert i == 0 ==> cmp(s[0], s[0]) <= 0;
      }
      assert Ties(x, y, cmp) ==> cmp(first, x) <= 0;
    }
  }

  // ---- sorting ----

  /** mergesort gives a sorted permutation and keeps ties in their order. */
  lemma {:induction false} SortsStably<T(!new)>(s: seq<T>, cmp: (T, T) -> int, xs: set<T>)
    requires Orders(cmp, xs) && Elements(s) <= xs
    ensures Sorted(MergeSort(s, cmp), cmp)
    ensures StablePermutation(MergeSort(s, cmp), s, cmp, xs)
    decreases |s|
  {
    if |s| > 1 {
      var middle := |s| / 2;
      var a, b := s[..middle], s[middle..];
      assert s == a + b;
      SortsStably(a, cmp, xs);
      SortsStably(b, cmp, xs);
      var l, r := MergeSort(a, cmp), MergeSort(b, cmp);
      SameElements(l, a);
      SameElements(r, b);
      MergeSorted(l, r, cmp, xs);
      MergeElements(l, r, cmp);
      forall x | x in xs ensures Class(MergeSort(s, cmp), x, cmp) == Class(s, x, cmp) {
        MergeClass(l, r, x, cmp, xs);
        ClassAppend(a, b, x, cmp);
      }
    }
  }

  lemma SameElements<T>(r: seq<T>, s: seq<T>)
    requires multiset(r) == multiset(s)
    ensures Elements(r) == Elements(s) && |r| == |s|
  {
    assert |multiset(r)| == |multiset(s)|;
    forall x ensures x in r <==> x in s {
      InMultiset(r, x);
      InMultiset(s, x);
    }
  }

  // ---- there is only one stable sort ----

  lemma {:induction false} FirstOfClass<T(!new)>(s: seq<T>, x: T, cmp: (T, T) -> int)
    requires s != [] && Ties(x, s[0], cmp)
    ensures Class(s, x, cmp) != [] && Class(s, x, cmp)[0] == s[0]
  {
  }

  /** Two sorted sequences with the same elements and the same classes are equal. */
  lemma {:induction false} StableSortIsUnique<T(!new)>(a: seq<T>, b: seq<T>, cmp: (T, T) -> int, xs: set<T>)
    requires Orders(cmp, xs) && Elements(a) <= xs
    requires Sorted(a, cmp) && Sorted(b, cmp) && StablePermutation(b, a, cmp, xs)
    ensures a == b
  {
    hide Sorted, Orders, Class;
    SameElements(b, a);
    if a != [] {
      SameHead(a, b, cmp, xs);
      SortedTail(a, cmp);
      SortedTail(b, cmp);
      TailsAgree(a, b, cmp, xs);
      assert forall y :: y in a[1..] ==> y in Elements(a);
      StableSortIsUnique(a[1..], b[1..], cmp, xs);
      assert a == [a[0]] + a[1..] && b == [b[0]] + b[1..];
    }
  }

  lemma TailsAgree<T(!new)>(a: seq<T>, b: seq<T>, cmp: (T, T) -> int, xs: set<T>)
    requires a != [] && b != [] && a[0] == b[0] && StablePermutation(b, a, cmp, xs)
    ensures StablePermutation(b[1..], a[1..], cmp, xs)
  {
    MultisetCons(a);
    MultisetCons(b);
    assert multiset(b[1..]) == multiset(b) - multiset{b[0]};
    assert multiset(a[1..]) == multiset(a) - multiset{a[0]};
    forall x | x in xs ensures Class(b[1..], x, cmp) == Class(a[1..], x, cmp) {
      ClassTail(a, x, cmp);
      ClassTail(b, x, cmp);
    }
  }

  lemma ClassTail<T(!new)>(s: seq<T>, x: T, cmp: (T, T) -> int)
    requires s != []
    ensures Class(s[1..], x, cmp) == if Ties(x, s[0], cmp) then Class(s, x, cmp)[1..] else Class(s, x, cmp)
  {
  }

  lemma SameHead<T(!new)>(a: seq<T>, b: seq<T>, cmp: (T, T) -> int, xs: set<T>)
    requires Orders(cmp, xs) && Elements(a) == Elements(b) <= xs && a != [] && b != []
    requires Sorted(a, cmp) && Sorted(b, cmp) && StablePermutation(b, a, cmp, xs)
    ensures a[0] == b[0]
  {
    var x := a[0];
    assert x in Elements(b) && b[0] in Elements(a) && x in xs && b[0] in xs;
    var i :| 0 <= i < |b| && b[i] == x;
    var j :| 0 <= j < |a| && a[j] == b[0];
    assert cmp(x, x) <= 0 && cmp(b[0], b[0]) <= 0;
    assert Ties(x, b[0], cmp) && Ties(x, x, cmp);
    FirstOfClass(a, x, cmp);
    FirstOfClass(b, x, cmp);
  }

  /** mergesort computes the stable sort: nothing else is sorted and a stable permutation. */
  lemma MergeSortIsTheStableSort<T(!new)>(r: seq<T>, s: seq<T>, cmp: (T, T) -> int, xs: set<T>)
    requires Orders(cmp, xs) && Elements(s) <= xs
    ensures Sorted(r, cmp) && StablePermutation(r, s, cmp, xs) <==> r == MergeSort(s, cmp)
  {
    SortsStably(s, cmp, xs);
    if Sorted(r, cmp) && StablePermutation(r, s, cmp, xs) {
      SameElements(r, s);
      StableSortIsUnique(r, MergeSort(s, cmp), cmp, xs);
    }
  }

  // ---- merging the sorted files ----

  function SortEach<T>(inputs: seq<seq<T>>, cmp: (T, T) -> int): (r: seq<seq<T>>)
    ensures |r| == |inputs|
  {
    seq(|inputs|, i requires 0 <= i < |inputs| => MergeSort(inputs[i], cmp))
  }

  /** What main writes out is the stable sort of all the inputs, one behind the other. */
  lemma {:induction false} MergedFilesAreTheSort<T(!new)>(inputs: seq<seq<T>>, cmp: (T, T) -> int, xs: set<T>)
    requires Orders(cmp, xs) && Elements(Concat(inputs)) <= xs
    ensures MergeAll(SortEach(inputs, cmp), cmp) == MergeSort(Concat(inputs), cmp)
  {
    FoldSortsStably(inputs, cmp, xs);
    MergeSortIsTheStableSort(MergeAll(SortEach(inputs, cmp), cmp), Concat(inputs), cmp, xs);
  }

  lemma {:induction false} FoldSortsStably<T(!new)>(inputs: seq<seq<T>>, cmp: (T, T) -> int, xs: set<T>)
    requires Orders(cmp, xs) && Elements(Concat(inputs)) <= xs
    ensures Sorted(MergeAll(SortEach(inputs, cmp), cmp), cmp)
    ensures StablePermutation(MergeAll(SortEach(inputs, cmp), cmp), Concat(inputs), cmp, xs)
  {
    if inputs != [] {
      var n := |inputs| - 1;
      var init, last := inputs[..n], inputs[n];
      var sorted := SortEach(inputs, cmp);
      assert sorted[..n] == SortEach(init, cmp);
      assert forall y :: y in Concat(init) || y in last ==> y in Elements(Concat(inputs));
      FoldSortsStably(init, cmp, xs);
      SortsStably(last, cmp, xs);
      var l, r := MergeAll(SortEach(init, cmp), cmp), MergeSort(last, cmp);
      SameElements(l, Concat(init));
      SameElements(r, last);
      MergeSorted(l, r, cmp, xs);
      MergeElements(l, r, cmp);
      forall x | x in xs ensures Class(Merge(l, r, cmp), x, cmp) == Class(Concat(inputs), x, cmp) {
        MergeClass(l, r, x, cmp, xs);
        ClassAppend(Concat(init), last, x, cmp);
      }
    }
  }
}

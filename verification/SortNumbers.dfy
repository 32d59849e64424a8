/** What the program writes for files of 32-bit numbers, with the comparator it uses. */
module SortNumbers {
  import opened SortModel
  import opened SortTheorems

  predicate Ascending(s: seq<int>) {
    forall i, j :: 0 <= i < j < |s| ==> s[i] <= s[j]
  }

  /** The numbers main writes for these files. */
  function Written(files: seq<seq<int>>): seq<int> {
    MergeAll(SortEach(files, IntGt), IntGt)
  }

  predicate Numbers(xs: set<int>) {
    forall x :: x in xs ==> IsInt32(x)
  }

  predicate DifferencesFit(xs: set<int>) {
    forall x, y :: x in xs && y in xs ==> IsInt32(x - y)
  }

  lemma {:induction false} SortElements(s: seq<int>)
    ensures multiset(MergeSort(s, IntGt)) == multiset(s)
    decreases |s|
  {
    if |s| > 1 {
      var a, b := s[..|s| / 2], s[|s| / 2..];
      assert s == a + b;
      SortElements(a);
      SortElements(b);
      MergeElements(MergeSort(a, IntGt), MergeSort(b, IntGt), IntGt);
    }
  }

  /** Whatever the comparator says, no number is lost or made up. */
  lemma {:induction false} WrittenIsPermutation(files: seq<seq<int>>)
    ensures multiset(Written(files)) == multiset(Concat(files))
  {
    if files != [] {
      var n := |files| - 1;
      assert SortEach(files, IntGt)[..n] == SortEach(files[..n], IntGt);
      WrittenIsPermutation(files[..n]);
      SortElements(files[n]);
      MergeElements(Written(files[..n]), MergeSort(files[n], IntGt), IntGt);
    }
  }

  lemma OneFile(s: seq<int>)
    ensures Written([s]) == MergeSort(s, IntGt)
  {
    var sorted := SortEach([s], IntGt);
    assert MergeAll(sorted[..0], IntGt) == [];
    assert MergeAll(sorted, IntGt) == Merge(MergeAll(sorted[..0], IntGt), sorted[0], IntGt);
  }

  lemma AscendingPair(a: int, b: int)
    ensures Ascending([a, b]) <==> a <= b
  {
    if Ascending([a, b]) {
      assert [a, b][0] <= [a, b][1];
    }
  }

  /** Two numbers come out in order exactly when their difference fits. */
  lemma PairSortedIff(a: int, b: int)
    requires IsInt32(a) && IsInt32(b)
    ensures Ascending(Written([[a, b]])) <==> IsInt32(a - b)
  {
    IntGtOrders(a, b);
    var s := [a, b];
    assert s[..1] == [a] && s[1..] == [b];
    assert MergeSort(s, IntGt) == Merge([a], [b], IntGt);
    assert Merge([a], [b], IntGt) == if IntGt(a, b) <= 0 then [a, b] else [b, a];
    OneFile(s);
    AscendingPair(a, b);
    AscendingPair(b, a);
    assert a == b ==> IntGt(a, b) == 0;
  }

  lemma FittingIsAscending(xs: set<int>, files: seq<seq<int>>)
    requires Numbers(xs) && DifferencesFit(xs) && Elements(Concat(files)) <= xs
    ensures Ascending(Written(files))
  {
    IntGtIsOrder(xs);
    FoldSortsStably(files, IntGt, xs);
    var r := Written(files);
    SameElements(r, Concat(files));
    forall i, j | 0 <= i < j < |r| ensures r[i] <= r[j] {
      assert r[i] in Elements(r) && r[j] in Elements(r);
      IntGtOrders(r[i], r[j]);
    }
  }

  /** The program sorts all files of numbers from xs, if and only if the differences of these
      numbers fit in 32 bits. */
  lemma MainSortsIff(xs: set<int>)
    requires Numbers(xs)
    ensures DifferencesFit(xs) <==>
      forall files :: Elements(Concat(files)) <= xs ==>
        Ascending(Written(files)) && multiset(Written(files)) == multiset(Concat(files))
  {
    if DifferencesFit(xs) {
      forall files | Elements(Concat(files)) <= xs
        ensures Ascending(Written(files)) && multiset(Written(files)) == multiset(Concat(files))
      {
        FittingIsAscending(xs, files);
        WrittenIsPermutation(files);
      }
    } else {
      var a, b :| a in xs && b in xs && !IsInt32(a - b);
      PairSortedIff(a, b);
      assert Concat([[a, b]]) == Concat([[a, b]][..0]) + [a, b];
      assert Elements(Concat([[a, b]])) <= xs;
    }
  }

  /** Two numbers the program writes in the wrong order. */
  lemma WrongOrder()
    ensures Written([[-2_000_000_000, 2_000_000_000]]) == [2_000_000_000, -2_000_000_000]
  {
    PairSortedIff(-2_000_000_000, 2_000_000_000);
    WrittenIsPermutation([[-2_000_000_000, 2_000_000_000]]);
    var s := [-2_000_000_000, 2_000_000_000];
    assert Concat([s]) == Concat([s][..0]) + s;
    TwoLeft(Written([s]), s[0], s[1]);
  }

  lemma TwoLeft(r: seq<int>, a: int, b: int)
    requires multiset(r) == multiset([a, b]) && !Ascending(r) && a < b
    ensures r == [b, a]
  {
    SameElements(r, [a, b]);
    assert r == [r[0], r[1]];
    assert r[0] in multiset(r) && r[1] in multiset(r);
    assert multiset(r) == multiset{r[0], r[1]};
  }
}

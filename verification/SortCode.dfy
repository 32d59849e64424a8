/** merge, mergesort and the merging fold of 1/solution.c, on arrays in place. */
module SortCode {
  import opened SortModel

  /** my_memcpy, lines 53-63, and the copying loops of merge (88-100). */
  method CopyRun<T>(src: array<T>, from: nat, count: nat, dst: array<T>, at: nat)
    requires from + count <= src.Length && at + count <= dst.Length && src != dst
    modifies dst
    ensures forall k :: 0 <= k < dst.Length ==>
      dst[k] == if at <= k < at + count then src[from + (k - at)] else old(dst[k])
  {
    var n := 0;
    while n < count
      invariant n <= count
      invariant forall k :: 0 <= k < dst.Length ==>
        dst[k] == if at <= k < at + n then src[from + (k - at)] else old(dst[k])
    {
      dst[at + n] := src[from + n];
      n := n + 1;
    }
  }

  /** Lines 72-86: as long as both runs have elements. */
  method MergeBoth<T>(left: array<T>, leftLo: nat, leftSize: nat, right: array<T>, rightLo: nat, rightSize: nat,
                      cmp: (T, T) -> int, result: array<T>) returns (i: nat, j: nat)
    requires leftLo + leftSize <= left.Length && rightLo + rightSize <= right.Length
    requires leftSize + rightSize <= result.Length && result != left && result != right
    modifies result
    ensures i <= leftSize && j <= rightSize && (i == leftSize || j == rightSize)
    ensures result[..i + j] + left[leftLo + i..leftLo + leftSize] + right[rightLo + j..rightLo + rightSize] ==
      Merge(left[leftLo..leftLo + leftSize], right[rightLo..rightLo + rightSize], cmp)
    ensures result[leftSize + rightSize..] == old(result[leftSize + rightSize..])
  {
    hide Merge;
    ghost var l, r := left[leftLo..leftLo + leftSize], right[rightLo..rightLo + rightSize];
    i, j := 0, 0;
    assert l[0..] == l && r[0..] == r;
    ghost var done: seq<T> := [];
    while i < leftSize && j < rightSize
      invariant i <= leftSize && j <= rightSize
      invariant result[..i + j] == done
      invariant done + Merge(l[i..], r[j..], cmp) == Merge(l, r, cmp)
      invariant result[leftSize + rightSize..] == old(result[leftSize + rightSize..])
    {
      MergeStep(done, l, i, r, j, cmp);
      assert l[i] == left[leftLo + i] && r[j] == right[rightLo + j];
      if cmp(left[leftLo + i], right[rightLo + j]) <= 0 {
        result[i + j] := left[leftLo + i];
        done, i := done + [l[i]], i + 1;
      } else {
        result[i + j] := right[rightLo + j];
        done, j := done + [r[j]], j + 1;
      }
    }
    MergeEnds(done, l, i, r, j, cmp);
    SliceOfSlice(left[..], leftLo, leftSize, i);
    SliceOfSlice(right[..], rightLo, rightSize, j);
  }

  lemma SliceOfSlice<T>(s: seq<T>, lo: nat, n: nat, i: nat)
    requires lo + n <= |s| && i <= n
    ensures s[lo..lo + n][i..] == s[lo + i..lo + n]
  {
  }

  /** merge, lines 65-101: two runs into a result buffer. */
  method MergeRuns<T>(left: array<T>, leftLo: nat, leftSize: nat, right: array<T>, rightLo: nat, rightSize: nat,
                      cmp: (T, T) -> int, result: array<T>)
    requires leftLo + leftSize <= left.Length && rightLo + rightSize <= right.Length
    requires leftSize + rightSize <= result.Length && result != left && result != right
    modifies result
    ensures result[..leftSize + rightSize] ==
      Merge(left[leftLo..leftLo + leftSize], right[rightLo..rightLo + rightSize], cmp)
    ensures result[leftSize + rightSize..] == old(result[leftSize + rightSize..])
  {
    hide Merge;
    var i, j := MergeBoth(left, leftLo, leftSize, right, rightLo, rightSize, cmp, result);
    ghost var done := result[..i + j];
    CopyRun(left, leftLo + i, leftSize - i, result, i + j);
    CopyRun(right, rightLo + j, rightSize - j, result, leftSize + j);
    assert result[..leftSize + rightSize] ==
      done + left[leftLo + i..leftLo + leftSize] + right[rightLo + j..rightLo + rightSize];
  }

  /** The next element of a merge. */
  lemma MergeStep<T>(done: seq<T>, l: seq<T>, i: nat, r: seq<T>, j: nat, cmp: (T, T) -> int)
    requires i < |l| && j < |r|
    ensures done + Merge(l[i..], r[j..], cmp) ==
      if cmp(l[i], r[j]) <= 0 then (done + [l[i]]) + Merge(l[i + 1..], r[j..], cmp)
      else (done + [r[j]]) + Merge(l[i..], r[j + 1..], cmp)
  {
    assert l[i..][1..] == l[i + 1..] && r[j..][1..] == r[j + 1..];
  }

  lemma MergeEnds<T>(done: seq<T>, l: seq<T>, i: nat, r: seq<T>, j: nat, cmp: (T, T) -> int)
    requires i <= |l| && j <= |r| && (i == |l| || j == |r|)
    ensures done + l[i..] + r[j..] == done + Merge(l[i..], r[j..], cmp)
  {
  }

  /** yield_coro_period_end as a sorting coroutine sees it: while it is suspended, the others may
      do anything to their own arrays. */
  method Pause<T>(others: set<array<T>>)
    modifies others
  {
  }

  /** Lines 201-208: the two sorted halves are merged into a buffer, and copied back. */
  method MergeHalves<T(0)>(a: array<T>, lo: nat, middle: nat, n: nat, cmp: (T, T) -> int)
    requires middle <= n && lo + n <= a.Length
    modifies a
    ensures a[lo..lo + n] == Merge(old(a[lo..lo + middle]), old(a[lo + middle..lo + n]), cmp)
    ensures forall k :: 0 <= k < a.Length && !(lo <= k < lo + n) ==> a[k] == old(a[k])
  {
    hide Merge;
    var temp := new T[n];
    MergeRuns(a, lo, middle, a, lo + middle, n - middle, cmp, temp);
    CopyRun(temp, 0, n, a, lo);
    assert a[lo..lo + n] == temp[..n];
  }

  /** mergesort, lines 170-211, between suspensions: whatever the other coroutines do meanwhile,
      the segment ends up as the uninterrupted sort of what it was, and the rest of the array
      is untouched. */
  method Sort<T(0)>(a: array<T>, lo: nat, n: nat, cmp: (T, T) -> int, others: set<array<T>>)
    requires lo + n <= a.Length && a !in others
    modifies a, others
    ensures a[lo..lo + n] == MergeSort(old(a[lo..lo + n]), cmp)
    ensures forall k :: 0 <= k < a.Length && !(lo <= k < lo + n) ==> a[k] == old(a[k])
    decreases n
  {
    hide Merge, MergeSort;
    SortSplits(a[lo..lo + n], cmp);
    if n <= 1 {
      return;
    }
    var middle := n / 2;
    ghost var x, y := a[lo..lo + middle], a[lo + middle..lo + n];
    assert a[lo..lo + n][..middle] == x && a[lo..lo + n][middle..] == y;
    Sort(a, lo, middle, cmp, others);
    assert a[lo + middle..lo + n] == y;
    Pause(others);
    Sort(a, lo + middle, n - middle, cmp, others);
    assert a[lo..lo + middle] == MergeSort(x, cmp);
    Pause(others);
    MergeHalves(a, lo, middle, n, cmp);
  }

  lemma SortSplits<T>(s: seq<T>, cmp: (T, T) -> int)
    ensures MergeSort(s, cmp) ==
      if |s| <= 1 then s
      else Merge(MergeSort(s[..|s| / 2], cmp), MergeSort(s[|s| / 2..], cmp), cmp)
  {
  }

  /** The contents of the files' arrays. */
  ghost function Contents<T>(files: seq<array<T>>): (r: seq<seq<T>>)
    reads files
    ensures |r| == |files|
  {
    if files == [] then [] else Contents(files[..|files| - 1]) + [files[|files| - 1][..]]
  }

  lemma ContentsGrow<T>(files: seq<array<T>>, i: nat, cmp: (T, T) -> int)
    requires i < |files|
    ensures MergeAll(Contents(files[..i + 1]), cmp) == Merge(MergeAll(Contents(files[..i]), cmp), files[i][..], cmp)
  {
    hide Merge;
    var before := Contents(files[..i]);
    assert files[..i + 1][..i] == files[..i];
    assert Contents(files[..i + 1]) == before + [files[i][..]];
    assert (before + [files[i][..]])[..i] == before;
  }

  /** Lines 285-287: one more file. */
  method MergeTwo<T(0)>(left: array<T>, right: array<T>, cmp: (T, T) -> int) returns (result: array<T>)
    ensures fresh(result) && result[..] == Merge(left[..], right[..], cmp)
  {
    hide Merge;
    result := new T[left.Length + right.Length];
    MergeRuns(left, 0, left.Length, right, 0, right.Length, cmp, result);
    assert left[0..left.Length] == left[..] && right[0..right.Length] == right[..];
    assert result[..] == result[..left.Length + right.Length];
  }

  /** main, lines 280-293: the sorted arrays are merged into one, in file order. */
  method MergeFiles<T(0)>(files: seq<array<T>>, cmp: (T, T) -> int) returns (result: array<T>)
    ensures fresh(result) && result[..] == MergeAll(Contents(files), cmp)
  {
    hide Merge, MergeAll, Contents;
    result := new T[0];
    NoFiles(files, cmp);
    for i := 0 to |files|
      invariant fresh(result) && result[..] == MergeAll(Contents(files[..i]), cmp)
    {
      ContentsGrow(files, i, cmp);
      result := MergeTwo(result, files[i], cmp);
    }
    assert files[..|files|] == files;
  }

  lemma NoFiles<T>(files: seq<array<T>>, cmp: (T, T) -> int)
    ensures MergeAll(Contents(files[..0]), cmp) == []
  {
  }
}

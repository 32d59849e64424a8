/** The merge sort of 1/solution.c on values, for any comparator that orders its elements. */
module SortModel {
  // ---- the comparator ----

  const TWO_31: int := 0x8000_0000
  const TWO_32: int := 0x1_0000_0000

  predicate IsInt32(x: int) {
    -TWO_31 <= x < TWO_31
  }

  /** A 32-bit difference: it wraps around. */
  function Wrap32(x: int): (r: int)
    ensures IsInt32(r) && (r - x) % TWO_32 == 0
  {
    (x + TWO_31) % TWO_32 - TWO_31
  }

  /** int_gt_comparator, lines 48-51: the sign of a 32-bit subtraction. */
  function IntGt(a: int, b: int): int {
    Wrap32(a - b)
  }

  /** The subtraction orders two numbers correctly, if and only if their difference fits in 32
      bits. */
  lemma IntGtOrders(a: int, b: int)
    requires IsInt32(a) && IsInt32(b)
    ensures (IntGt(a, b) <= 0 <==> a <= b) <==> IsInt32(a - b)
  {
    var d := a - b;
    assert -TWO_32 < d < TWO_32;
    if d >= TWO_31 {
      assert (d + TWO_31) % TWO_32 == d + TWO_31 - TWO_32;
    } else if d < -TWO_31 {
      assert (d + TWO_31) % TWO_32 == d + TWO_31 + TWO_32;
    }
  }

  /** The comparator is a total preorder on these elements. */
  ghost predicate Orders<T(!new)>(cmp: (T, T) -> int, xs: set<T>) {
    && (forall x, y :: x in xs && y in xs ==> cmp(x, y) <= 0 || cmp(y, x) <= 0)
    && (forall x, y, z :: x in xs && y in xs && z in xs && cmp(x, y) <= 0 && cmp(y, z) <= 0 ==> cmp(x, z) <= 0)
  }

  /** int_gt_comparator orders any numbers whose differences fit in 32 bits. */
  lemma IntGtIsOrder(xs: set<int>)
    requires forall x :: x in xs ==> IsInt32(x)
    requires forall x, y :: x in xs && y in xs ==> IsInt32(x - y)
    ensures Orders(IntGt, xs)
  {
    forall x, y | x in xs && y in xs ensures IntGt(x, y) <= 0 <==> x <= y {
      IntGtOrders(x, y);
    }
  }

  // ---- merging and sorting ----

  /** merge, lines 65-101: on a tie the left element goes first. */
  function Merge<T>(left: seq<T>, right: seq<T>, cmp: (T, T) -> int): (r: seq<T>)
    ensures |r| == |left| + |right|
  {
    if left == [] then right
    else if right == [] then left
    else if cmp(left[0], right[0]) <= 0 then [left[0]] + Merge(left[1..], right, cmp)
    else [right[0]] + Merge(left, right[1..], cmp)
  }

  /** mergesort, lines 170-211. */
  function MergeSort<T>(s: seq<T>, cmp: (T, T) -> int): (r: seq<T>)
    ensures |r| == |s|
  {
    if |s| <= 1 then s
    else
      var middle := |s| / 2;
      Merge(MergeSort(s[..middle], cmp), MergeSort(s[middle..], cmp), cmp)
  }

  /** The merging fold of main, lines 280-293. */
  function MergeAll<T>(arrays: seq<seq<T>>, cmp: (T, T) -> int): seq<T> {
    if arrays == [] then []
    else Merge(MergeAll(arrays[..|arrays| - 1], cmp), arrays[|arrays| - 1], cmp)
  }

  function Concat<T>(arrays: seq<seq<T>>): seq<T> {
    if arrays == [] then [] else Concat(arrays[..|arrays| - 1]) + arrays[|arrays| - 1]
  }

  // ---- what a stable sort is ----

  ghost predicate Sorted<T(!new)>(s: seq<T>, cmp: (T, T) -> int) {
    forall i, j :: 0 <= i < j < |s| ==> cmp(s[i], s[j]) <= 0
  }

  predicate Ties<T>(x: T, y: T, cmp: (T, T) -> int) {
    cmp(x, y) <= 0 && cmp(y, x) <= 0
  }

  /** The elements that tie with x, in the order they have in s. */
  function Class<T>(s: seq<T>, x: T, cmp: (T, T) -> int): seq<T> {
    if s == [] then []
    else (if Ties(x, s[0], cmp) then [s[0]] else []) + Class(s[1..], x, cmp)
  }

  /** Same elements, and tying elements in the same order. */
  ghost predicate StablePermutation<T(!new)>(r: seq<T>, s: seq<T>, cmp: (T, T) -> int, xs: set<T>) {
    multiset(r) == multiset(s) && forall x :: x in xs ==> Class(r, x, cmp) == Class(s, x, cmp)
  }

  function Elements<T>(s: seq<T>): set<T> {
    set x | x in s
  }

  lemma {:induction false} ClassAppend<T>(a: seq<T>, b: seq<T>, x: T, cmp: (T, T) -> int)
    ensures Class(a + b, x, cmp) == Class(a, x, cmp) + Class(b, x, cmp)
  {
    if a == [] {
      assert a + b == b;
    } else {
      var head := if Ties(x, a[0], cmp) then [a[0]] else [];
      ClassAppend(a[1..], b, x, cmp);
      assert (a + b)[0] == a[0] && (a + b)[1..] == a[1..] + b;
      assert head + (Class(a[1..], x, cmp) + Class(b, x, cmp)) == (head + Class(a[1..], x, cmp)) + Class(b, x, cmp);
    }
  }
}

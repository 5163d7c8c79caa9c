/** The sorts of util.c, on arrays: the original quicksort, the AVL sort that replaced it, and the
    compaction of repeated neighbours. */
module Sorting {
  import opened Words
  import T = AvlTree
  import opened AvlNodes

  const SORT_THRESHOLD := 16

  // ------------------------------------------------------------------ AVL sort

  method BuildFromArray(keys: array<nat>, n: nat) returns (root: AvlNode?, ghost sh: Shape)
    requires n <= keys.Length
    ensures Linked(root, sh) && fresh(Nodes(sh)) && Tree(sh) == T.Build(keys[..n])
  {
    root, sh := null, Nil;
    assert keys[..0] == [];
    var i := 0;
    while i < n
      invariant i <= n
      invariant Linked(root, sh) && fresh(Nodes(sh)) && Tree(sh) == T.Build(keys[..i])
    {
      ghost var before := sh;
      var inserted;
      root, inserted, sh := AvlInsert(root, keys[i], sh, keys[..i]);
      Allocated(sh);
      assert forall n :: n in Nodes(sh) ==> n in Nodes(before) || n in Nodes(sh) - Nodes(before);
      assert keys[..i + 1] == keys[..i] + [keys[i]];
      i := i + 1;
    }
  }

  /** avl_insert on a tree built from `done`. */
  method AvlInsert(root: AvlNode?, key: nat, ghost sh: Shape, ghost done: seq<nat>)
    returns (root': AvlNode, inserted: bool, ghost sh': Shape)
    requires Linked(root, sh) && Tree(sh) == T.Build(done)
    modifies Nodes(sh)
    ensures Linked(root', sh') && fresh(Nodes(sh') - Nodes(sh)) && Tree(sh') == T.Build(done + [key])
    ensures inserted == !T.Contains(T.Build(done), key)
  {
    T.BuildBalanced(done);
    T.BuildAppends(done, key);
    root', inserted, sh' := InsertNode(root, key, sh);
  }

  /** s with `keys` written from place idx on. */
  function Written(s: seq<nat>, idx: nat, keys: seq<nat>): seq<nat>
    requires idx + |keys| <= |s|
  {
    s[..idx] + keys + s[idx + |keys|..]
  }

  lemma WrittenInTurn(s: seq<nat>, idx: nat, l: seq<nat>, r: seq<nat>)
    requires idx <= |s|
    ensures Written(s, idx, []) == s
    ensures idx + |l| + |r| <= |s| ==> Written(Written(s, idx, l), idx + |l|, r) == Written(s, idx, l + r)
  {
  }

  method WriteToArray(node: AvlNode, a: array<nat>, idx: nat) returns (next: nat)
    requires idx < a.Length
    modifies a
    ensures next == idx + 1 && a[..] == Written(old(a[..]), idx, [node.key])
  {
    a[idx] := node.key;
    next := idx + 1;
  }

  lemma {:induction false} InorderParts(node: AvlNode, sh: Shape) returns (l: seq<nat>, k: nat, r: seq<nat>)
    requires Linked(node, sh)
    ensures Linked(node.left, sh.l) && Linked(node.right, sh.r) && k == node.key
    ensures l == T.Inorder(Tree(sh.l)) && r == T.Inorder(Tree(sh.r)) && T.Inorder(Tree(sh)) == l + [k] + r
  {
    l, k, r := T.Inorder(Tree(sh.l)), node.key, T.Inorder(Tree(sh.r));
  }

  /** inorder_traverse with write_to_array: keys go to consecutive places from idx on. */
  method WriteInorder(node: AvlNode?, a: array<nat>, idx: nat, ghost sh: Shape, ghost keys: seq<nat>)
    returns (next: nat)
    requires Linked(node, sh) && keys == T.Inorder(Tree(sh)) && idx + |keys| <= a.Length
    modifies a
    ensures next == idx + |keys| && a[..] == Written(old(a[..]), idx, keys)
    decreases sh, 1
  {
    if node == null {
      WrittenInTurn(a[..], idx, [], []);
      return idx;
    }
    ghost var was := a[..];
    ghost var l, k, r := InorderParts(node, sh);
    InTwo(l, k, r);
    Allocated(sh);
    next := WriteInorder(node.left, a, idx, sh.l, l);
    next := WriteRest(node, a, next, sh, r);
    WrittenInTurn(was, idx, l, [k] + r);
  }

  lemma InTwo(l: seq<nat>, k: nat, r: seq<nat>)
    ensures l + [k] + r == l + ([k] + r) && |l + ([k] + r)| == |l| + 1 + |r|
  {
  }

  /** The node itself and its right subtree. */
  method WriteRest(node: AvlNode, a: array<nat>, idx: nat, ghost sh: Shape, ghost r: seq<nat>) returns (next: nat)
    requires Linked(node, sh) && r == T.Inorder(Tree(sh.r)) && idx + 1 + |r| <= a.Length
    modifies a
    ensures next == idx + 1 + |r| && a[..] == Written(old(a[..]), idx, [node.key] + r)
    decreases sh, 0
  {
    Allocated(sh.r);
    next := WriteToArray(node, a, idx);
    next := WriteInorder(node.right, a, next, sh.r, r);
    WrittenInTurn(old(a[..]), idx, [node.key], r);
  }

  /** What forkscan_util_avl_sort leaves in the array: the distinct values in increasing order, then
      whatever was there. */
  function AvlSorted(s: seq<nat>): (r: seq<nat>)
    ensures |r| == |s|
  {
    T.AscendingLists(s);
    if |s| <= 1 then s else T.Ascending(s) + s[|T.Ascending(s)|..]
  }

  method AvlSort(a: array<nat>, length: nat)
    requires length <= a.Length
    modifies a
    ensures a[..] == AvlSorted(old(a[..length])) + old(a[length..])
  {
    if length <= 1 {
      assert a[..] == a[..length] + a[length..];
      return;
    }
    var root;
    ghost var sh;
    root, sh := BuildFromArray(a, length);
    AvlSortedWritten(a[..], length);
    var next := WriteInorder(root, a, 0, sh, T.Ascending(a[..length]));
  }

  lemma AvlSortedWritten(s: seq<nat>, length: nat)
    requires 1 < length <= |s|
    ensures |T.Ascending(s[..length])| <= |s|
    ensures Written(s, 0, T.Ascending(s[..length])) == AvlSorted(s[..length]) + s[length..]
  {
    T.AscendingLists(s[..length]);
  }

  // ------------------------------------------------------------------ quicksort

  ghost predicate Sorted(s: seq<nat>, lo: int, hi: int) {
    forall i, j :: 0 <= lo <= i < j < hi <= |s| ==> s[i] <= s[j]
  }

  /** Nothing before place lo exceeds anything from lo up to hi. */
  ghost predicate Floor(s: seq<nat>, lo: int, hi: int) {
    forall i, j :: 0 <= i < lo <= j < hi <= |s| ==> s[i] <= s[j]
  }

  /** t is s with the places from lo up to hi rearranged. */
  ghost predicate Rearranged(s: seq<nat>, t: seq<nat>, lo: int, hi: int) {
    && |s| == |t| && multiset(s) == multiset(t)
    && forall i :: 0 <= i < |s| && (i < lo || hi <= i) ==> t[i] == s[i]
  }

  lemma CancelEnds(p: seq<nat>, x: seq<nat>, y: seq<nat>, q: seq<nat>)
    requires multiset(p + x + q) == multiset(p + y + q)
    ensures multiset(x) == multiset(y)
  {
    forall v ensures multiset(x)[v] == multiset(y)[v] {
      assert multiset(p + x + q)[v] == multiset(p)[v] + multiset(x)[v] + multiset(q)[v];
      assert multiset(p + y + q)[v] == multiset(p)[v] + multiset(y)[v] + multiset(q)[v];
    }
  }

  lemma RearrangedMembers(s: seq<nat>, t: seq<nat>, lo: int, hi: int)
    requires Rearranged(s, t, lo, hi) && 0 <= lo <= hi <= |s|
    ensures multiset(s[lo..hi]) == multiset(t[lo..hi])
    ensures forall j :: lo <= j < hi ==> exists i :: lo <= i < hi && s[i] == t[j]
  {
    var p, q, x, y := s[..lo], s[hi..], s[lo..hi], t[lo..hi];
    assert s == p + x + q;
    assert t == p + y + q;
    CancelEnds(p, x, y, q);
    forall j | lo <= j < hi ensures exists i :: lo <= i < hi && s[i] == t[j] {
      assert y[j - lo] in multiset(y);
      assert t[j] in x;
      var k :| 0 <= k < |x| && x[k] == t[j];
      assert s[lo + k] == t[j];
    }
  }

  function Swapped(s: seq<nat>, n: nat, m: nat): seq<nat>
    requires n < |s| && m < |s|
  {
    s[n := s[m]][m := s[n]]
  }

  lemma SwappedRearranges(s: seq<nat>, t: seq<nat>, n: nat, m: nat, lo: int, hi: int)
    requires Rearranged(s, t, lo, hi) && lo <= n < hi && lo <= m < hi && n < |t| && m < |t|
    ensures Rearranged(s, Swapped(t, n, m), lo, hi)
  {
    assert multiset(Swapped(t, n, m)) == multiset(t);
  }

  lemma RearrangedInTurn(s: seq<nat>, t: seq<nat>, u: seq<nat>, lo: int, hi: int, lo': int, hi': int)
    requires Rearranged(s, t, lo, hi) && Rearranged(t, u, lo', hi') && lo <= lo' && hi' <= hi
    ensures Rearranged(s, u, lo, hi)
  {
  }

  method Swap(a: array<nat>, n: nat, m: nat)
    requires n < a.Length && m < a.Length
    modifies a
    ensures a[..] == Swapped(old(a[..]), n, m)
  {
    a[n], a[m] := a[m], a[n];
  }

  method Partition(a: array<nat>, min: nat, max: nat) returns (mid: nat)
    requires min <= max < a.Length
    modifies a
    ensures min <= mid <= max && Rearranged(old(a[..]), a[..], min, max + 1)
    ensures forall i :: min <= i < mid ==> a[i] <= a[mid]
    ensures forall i :: mid < i <= max ==> a[mid] < a[i]
  {
    ghost var s := a[..];
    var pivot := (max + min) / 2;
    var pivotVal := a[pivot];
    Swap(a, pivot, max);
    SwappedRearranges(s, s, pivot, max, min, max + 1);
    mid := Separate(a, min, max, pivotVal, s);
    PivotBack(s, a[..], min, max, mid, pivotVal);
    Swap(a, mid, max);
  }

  /** The pivot is put between the two parts. */
  lemma PivotBack(s: seq<nat>, t: seq<nat>, min: int, max: int, mid: int, pivotVal: nat)
    requires Separated(s, t, min, max, mid, max, pivotVal)
    ensures var u := Swapped(t, mid, max);
      && Rearranged(s, u, min, max + 1) && u[mid] == pivotVal
      && (forall i :: min <= i < mid ==> u[i] <= u[mid]) && (forall i :: mid < i <= max ==> u[mid] < u[i])
  {
    SwappedRearranges(s, t, mid, max, min, max + 1);
  }

  /** The loop of partition before place i: [min, mid) is not above the pivot's value, [mid, i) is. */
  ghost predicate Separated(s: seq<nat>, t: seq<nat>, min: int, max: int, mid: int, i: int, pivotVal: nat) {
    && 0 <= min <= mid <= i <= max < |t| && t[max] == pivotVal && Rearranged(s, t, min, max + 1)
    && (forall j :: min <= j < mid ==> t[j] <= pivotVal)
    && (forall j :: mid <= j < i ==> pivotVal < t[j])
  }

  lemma SeparateOne(s: seq<nat>, t: seq<nat>, min: int, max: int, mid: int, i: int, pivotVal: nat)
    requires Separated(s, t, min, max, mid, i, pivotVal) && i < max && t[i] <= pivotVal
    ensures Separated(s, Swapped(t, i, mid), min, max, mid + 1, i + 1, pivotVal)
  {
    SwappedRearranges(s, t, i, mid, min, max + 1);
  }

  /** The loop of partition: values up to the pivot's are moved to the front. */
  method Separate(a: array<nat>, min: nat, max: nat, pivotVal: nat, ghost s: seq<nat>) returns (mid: nat)
    requires min <= max < a.Length && a[max] == pivotVal && Rearranged(s, a[..], min, max + 1)
    modifies a
    ensures min <= mid && Separated(s, a[..], min, max, mid, max, pivotVal)
  {
    mid := min;
    for i := min to max
      invariant min <= mid && Separated(s, a[..], min, max, mid, i, pivotVal)
    {
      if a[i] <= pivotVal {
        SeparateOne(s, a[..], min, max, mid, i, pivotVal);
        Swap(a, i, mid);
        mid := mid + 1;
      }
    }
  }

  /** The inner loop of insertion_sort, bounded by j > 0 and not by j > min: it stops at min because
      nothing below min is larger than anything in the range. */
  method Sink(a: array<nat>, min: nat, max: nat, i: nat, ghost s: seq<nat>)
    requires min < i <= max < a.Length && Floor(a[..], min, max + 1) && Sorted(a[..], min, i)
    requires Rearranged(s, a[..], min, max + 1)
    modifies a
    ensures Rearranged(s, a[..], min, max + 1) && Floor(a[..], min, max + 1) && Sorted(a[..], min, i + 1)
  {
    var j := i;
    SinkStarts(s, a[..], min, max, i);
    while j > 0 && a[j - 1] > a[j]
      invariant j <= i && Sinking(s, a[..], min, max, i, j)
    {
      SinkSwap(a, min, max, i, j, s);
      j := j - 1;
    }
    Sunk(s, a[..], min, max, i, j);
  }

  /** One turn of it. */
  method SinkSwap(a: array<nat>, min: nat, max: nat, i: nat, j: nat, ghost s: seq<nat>)
    requires max < a.Length && j < a.Length && Sinking(s, a[..], min, max, i, j) && j > 0 && a[j - 1] > a[j]
    modifies a
    ensures j > min && Sinking(s, a[..], min, max, i, j - 1)
  {
    SinkOnce(s, a[..], min, max, i, j);
    Swap(a, j, j - 1);
  }

  /** The range is sorted up to place i, except that the value at j may belong further down. */
  ghost predicate Sinking(s: seq<nat>, t: seq<nat>, min: int, max: int, i: int, j: int) {
    && Rearranged(s, t, min, max + 1) && max < |t| && i <= max && Floor(t, min, max + 1) && SortedBut(t, min, i, j)
  }

  ghost predicate SortedBut(t: seq<nat>, min: int, i: int, j: int) {
    0 <= min <= j <= i < |t| && forall p, q :: min <= p < q <= i && q != j ==> t[p] <= t[q]
  }

  lemma SinkStarts(s: seq<nat>, t: seq<nat>, min: int, max: int, i: int)
    requires 0 <= min < i <= max < |t| && Floor(t, min, max + 1) && Sorted(t, min, i) && Rearranged(s, t, min, max + 1)
    ensures Sinking(s, t, min, max, i, i)
  {
  }

  lemma SinkOrder(t: seq<nat>, min: int, i: int, j: int)
    requires SortedBut(t, min, i, j) && j > min && t[j - 1] > t[j]
    ensures SortedBut(Swapped(t, j, j - 1), min, i, j - 1)
  {
    var u := Swapped(t, j, j - 1);
    forall p, q | min <= p < q <= i && q != j - 1 ensures u[p] <= u[q] {
      if q == j && p < j - 1 { assert t[p] <= t[j - 1]; }
      else if q > j { assert t[j - 1] <= t[q] && t[j] <= t[q]; }
    }
  }

  lemma SinkFloor(t: seq<nat>, min: int, hi: int, j: int)
    requires Floor(t, min, hi) && 0 <= min < j < hi <= |t|
    ensures Floor(Swapped(t, j, j - 1), min, hi)
  {
  }

  lemma SinkOnce(s: seq<nat>, t: seq<nat>, min: int, max: int, i: int, j: int)
    requires Sinking(s, t, min, max, i, j) && j > 0 && t[j - 1] > t[j]
    ensures j > min && Sinking(s, Swapped(t, j, j - 1), min, max, i, j - 1)
  {
    assert j > min;
    SwappedRearranges(s, t, j, j - 1, min, max + 1);
    SinkFloor(t, min, max + 1, j);
    SinkOrder(t, min, i, j);
  }

  lemma Sunk(s: seq<nat>, t: seq<nat>, min: int, max: int, i: int, j: int)
    requires Sinking(s, t, min, max, i, j) && (j > 0 ==> t[j - 1] <= t[j])
    ensures Sorted(t, min, i + 1)
  {
    forall p, q | min <= p < q <= i ensures t[p] <= t[q] {
      if q == j && p < j - 1 { assert t[p] <= t[j - 1]; }
    }
  }

  method InsertionSort(a: array<nat>, min: nat, max: int)
    requires min - 1 <= max < a.Length && Floor(a[..], min, max + 1)
    modifies a
    ensures Rearranged(old(a[..]), a[..], min, max + 1) && Sorted(a[..], min, max + 1)
  {
    ghost var s := a[..];
    var i := min + 1;
    while i <= max
      invariant min + 1 <= i <= Max(max, min) + 1
      invariant Rearranged(s, a[..], min, max + 1) && Floor(a[..], min, max + 1) && Sorted(a[..], min, i)
    {
      Sink(a, min, max, i, s);
      i := i + 1;
    }
  }

  method Quicksort(a: array<nat>, min: nat, max: int)
    requires min - 1 <= max < a.Length && Floor(a[..], min, max + 1)
    modifies a
    ensures Rearranged(old(a[..]), a[..], min, max + 1) && Sorted(a[..], min, max + 1)
    decreases max - min + 1
  {
    if max - min > SORT_THRESHOLD {
      ghost var s0 := a[..];
      var mid: int := Partition(a, min, max);
      ghost var s1 := a[..];
      PartitionedFloor(s0, s1, min, mid, max);
      Quicksort(a, min, mid - 1);
      ghost var s2 := a[..];
      RightFloor(s1, s2, min, mid, max);
      Quicksort(a, mid + 1, max);
      Combined(s0, s1, s2, a[..], min, mid, max);
    } else {
      InsertionSort(a, min, max);
    }
  }

  ghost predicate Split(s: seq<nat>, min: int, mid: int, max: int) {
    && 0 <= min <= mid <= max < |s| && Floor(s, min, max + 1)
    && (forall i :: min <= i < mid ==> s[i] <= s[mid]) && (forall i :: mid < i <= max ==> s[mid] <= s[i])
  }

  lemma PartitionedFloor(s0: seq<nat>, s1: seq<nat>, min: int, mid: int, max: int)
    requires 0 <= min <= mid <= max < |s0| && Floor(s0, min, max + 1) && Rearranged(s0, s1, min, max + 1)
    requires (forall i :: min <= i < mid ==> s1[i] <= s1[mid]) && (forall i :: mid < i <= max ==> s1[mid] < s1[i])
    ensures Split(s1, min, mid, max) && Floor(s1, min, mid)
  {
    RearrangedMembers(s0, s1, min, max + 1);
  }

  lemma RightFloor(s1: seq<nat>, s2: seq<nat>, min: int, mid: int, max: int)
    requires Split(s1, min, mid, max) && Rearranged(s1, s2, min, mid)
    ensures Split(s2, min, mid, max) && Floor(s2, mid + 1, max + 1)
  {
    RearrangedMembers(s1, s2, min, mid);
  }

  lemma Combined(s0: seq<nat>, s1: seq<nat>, s2: seq<nat>, s3: seq<nat>, min: int, mid: int, max: int)
    requires Rearranged(s0, s1, min, max + 1) && Rearranged(s1, s2, min, mid) && Rearranged(s2, s3, mid + 1, max + 1)
    requires Split(s2, min, mid, max) && Sorted(s2, min, mid) && Sorted(s3, mid + 1, max + 1)
    ensures Rearranged(s0, s3, min, max + 1) && Sorted(s3, min, max + 1)
  {
    CombinedSorted(s2, s3, min, mid, max);
    RearrangedInTurn(s0, s1, s2, min, max + 1, min, mid);
    RearrangedInTurn(s0, s2, s3, min, max + 1, mid + 1, max + 1);
  }

  /** Both parts are sorted, and nothing in the second is below the pivot. */
  lemma CombinedSorted(s2: seq<nat>, s3: seq<nat>, min: int, mid: int, max: int)
    requires Rearranged(s2, s3, mid + 1, max + 1) && Split(s2, min, mid, max)
    requires Sorted(s2, min, mid) && Sorted(s3, mid + 1, max + 1)
    ensures Sorted(s3, min, max + 1)
  {
    forall i | mid < i <= max ensures s2[mid] <= s3[i] { AbovePivot(s2, s3, mid, max, i); }
    forall i | min <= i <= mid ensures s3[i] == s2[i] && s2[i] <= s2[mid] {}
  }

  lemma AbovePivot(s2: seq<nat>, s3: seq<nat>, mid: int, max: int, i: int)
    requires 0 <= mid < i <= max < |s2| && Rearranged(s2, s3, mid + 1, max + 1)
    requires forall j :: mid < j <= max ==> s2[mid] <= s2[j]
    ensures s2[mid] <= s3[i]
  {
    RearrangedMembers(s2, s3, mid + 1, max + 1);
  }

  /** forkscan_util_sort returns a sorted permutation of every array. */
  method Sort(a: array<nat>, length: nat)
    requires length <= a.Length
    modifies a
    ensures Sorted(a[..], 0, length) && multiset(a[..length]) == multiset(old(a[..length]))
    ensures a[length..] == old(a[length..])
  {
    ghost var s := a[..];
    Quicksort(a, 0, length - 1);
    RearrangedMembers(s, a[..], 0, length);
    assert a[..][..length] == a[..length] && s[..length] == old(a[..length]);
  }

  // ------------------------------------------------------------------ the two sorts agree

  lemma FirstIsSmallest(p: seq<nat>, q: seq<nat>)
    requires Sorted(p, 0, |p|) && multiset(p) == multiset(q) && |p| > 0 && |q| > 0
    ensures p[0] <= q[0]
  {
    assert q[0] in multiset(q);
    assert q[0] in p;
  }

  lemma RestIsSame(x: nat, p: seq<nat>, q: seq<nat>)
    requires multiset([x] + p) == multiset([x] + q)
    ensures multiset(p) == multiset(q)
  {
    assert multiset(p) == multiset([x] + p) - multiset{x};
    assert multiset(q) == multiset([x] + q) - multiset{x};
  }

  lemma {:induction false} SortedIsUnique(p: seq<nat>, q: seq<nat>)
    requires Sorted(p, 0, |p|) && Sorted(q, 0, |q|) && multiset(p) == multiset(q)
    ensures p == q
  {
    assert |p| == |multiset(p)| && |q| == |multiset(q)|;
    if p != [] {
      FirstIsSmallest(p, q);
      FirstIsSmallest(q, p);
      assert p == [p[0]] + p[1..] && q == [p[0]] + q[1..];
      RestIsSame(p[0], p[1..], q[1..]);
      SortedIsUnique(p[1..], q[1..]);
    }
  }

  /** On an array without repetition the AVL sort is a permutation, and leaves what any correct sort,
      in particular Sort, leaves. */
  lemma SortsAgree(s: seq<nat>, t: seq<nat>)
    requires forall i, j :: 0 <= i < j < |s| ==> s[i] != s[j]
    requires Sorted(t, 0, |t|) && multiset(t) == multiset(s)
    ensures AvlSorted(s) == t
  {
    var u := T.Ascending(s);
    T.AscendingLists(s);
    DistinctFits(s, u);
    T.IncreasingIsShort(u, s);
    if |s| <= 1 {
      SortedIsUnique(s, t);
    } else {
      assert AvlSorted(s) == u;
      SortedIsUnique(u, t);
    }
  }

  /** A sequence without repetition is no longer than one that has all its members. */
  lemma {:induction false} DistinctFits(s: seq<nat>, u: seq<nat>)
    requires forall i, j :: 0 <= i < j < |s| ==> s[i] != s[j]
    requires forall q :: q in s ==> q in u
    ensures |s| <= |u|
  {
    if s != [] {
      var x := s[|s| - 1];
      assert x in s;
      var i :| 0 <= i < |u| && u[i] == x;
      var rest := u[..i] + u[i + 1..];
      forall q | q in s[..|s| - 1] ensures q in rest {
        assert q in s;
        var j :| 0 <= j < |u| && u[j] == q;
        assert j < i ==> rest[j] == q;
        assert j > i ==> rest[j - 1] == q;
      }
      DistinctFits(s[..|s| - 1], rest);
    }
  }

  // ------------------------------------------------------------------ compaction

  /** s with every run of equal neighbours reduced to one element. */
  function Compacted(s: seq<nat>): seq<nat> {
    if |s| < 2 then s
    else
      var front := Compacted(s[..|s| - 1]);
      if s[|s| - 1] == s[|s| - 2] then front else front + [s[|s| - 1]]
  }

  lemma {:induction false} CompactedEnds(s: seq<nat>)
    requires s != []
    ensures var c := Compacted(s); 0 < |c| <= |s| && c[|c| - 1] == s[|s| - 1]
  {
    if |s| >= 2 { CompactedEnds(s[..|s| - 1]); }
  }

  lemma CompactNext(s: seq<nat>, k: nat)
    requires 1 <= k < |s|
    ensures Compacted(s[..k]) != [] && Compacted(s[..k])[|Compacted(s[..k])| - 1] == s[k - 1]
    ensures Compacted(s[..k + 1]) == if s[k] == s[k - 1] then Compacted(s[..k]) else Compacted(s[..k]) + [s[k]]
  {
    CompactedEnds(s[..k]);
    assert s[..k + 1][..k] == s[..k];
  }

  method Compact(a: array<nat>, length: nat) returns (savings: nat)
    requires length <= a.Length
    modifies a
    ensures savings <= length && a[..length - savings] == Compacted(old(a[..length]))
    ensures a[length..] == old(a[length..])
  {
    if length < 2 { return 0; }
    ghost var s := a[..];
    var write := 0;
    assert s[..1] == [s[0]];
    for search := 1 to length
      invariant write < search && a[..write + 1] == Compacted(s[..search])
      invariant forall i :: write < i < a.Length ==> a[i] == s[i]
    {
      CompactNext(s, search);
      if a[search] != a[write] {
        write := write + 1;
        if write < search { a[write] := a[search]; }
        assert a[..write + 1] == a[..write] + [a[write]];
      }
    }
    write := write + 1;
    savings := length - write;
  }

  /** Compaction keeps the members and leaves no equal neighbours. */
  lemma {:induction false} CompactedMembers(s: seq<nat>)
    ensures forall q :: q in Compacted(s) <==> q in s
    ensures var c := Compacted(s); forall i, j :: 0 <= i < j < |c| && j == i + 1 ==> c[i] != c[j]
  {
    if |s| >= 2 {
      var front, last := s[..|s| - 1], s[|s| - 1];
      CompactedMembers(front);
      CompactedEnds(front);
      assert s == front + [last];
    }
  }

  /** An increasing prefix survives compaction. */
  lemma {:induction false} CompactedPrefix(p: seq<nat>, rest: seq<nat>)
    requires Increasing(p)
    ensures p <= Compacted(p + rest)
  {
    if |rest| > 0 {
      CompactedPrefix(p, rest[..|rest| - 1]);
      assert (p + rest)[..|p + rest| - 1] == p + rest[..|rest| - 1];
      if |p + rest| < 2 { assert p == []; }
    } else {
      assert p + rest == p;
      CompactedLength(p);
    }
  }

  lemma {:induction false} CompactedLength(p: seq<nat>)
    requires Increasing(p)
    ensures Compacted(p) == p
  {
    if |p| >= 2 { CompactedLength(p[..|p| - 1]); assert p == p[..|p| - 1] + [p[|p| - 1]]; }
  }
}

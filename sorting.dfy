/**
  * `Array.prototype.sort(comparator)` as the model gives it: a stable
  * insertion sort. `Sort` is what the sort computes, `InsertionSort` the
  * in-place algorithm over an array, proved to compute it. A comparator is
  * any function to integers; `cmp(a, b) < 0` puts `a` before `b`.
  */
module Sorting {

  /** Inserting `x` into sorted `s`: it passes, from the right, every element it compares below. */
  function Insert<T>(x: T, s: seq<T>, cmp: (T, T) -> int): (r: seq<T>)
    ensures |r| == |s| + 1
  {
    if s == [] then [x]
    else if cmp(x, s[|s| - 1]) < 0 then Insert(x, s[..|s| - 1], cmp) + [s[|s| - 1]]
    else s + [x]
  }

  /** The sorted contents: each element in turn inserted into the sorted elements before it. */
  function Sort<T>(s: seq<T>, cmp: (T, T) -> int): (r: seq<T>)
    ensures |r| == |s|
  {
    if s == [] then [] else Insert(s[|s| - 1], Sort(s[..|s| - 1], cmp), cmp)
  }

  /** No element is placed after one it compares below. */
  predicate Sorted<T>(s: seq<T>, cmp: (T, T) -> int) {
    forall i :: 0 < i < |s| ==> cmp(s[i - 1], s[i]) <= 0
  }

  /** Among the elements of `s`, the comparator is antisymmetric in sign. */
  ghost predicate Antisymmetric<T>(s: seq<T>, cmp: (T, T) -> int) {
    forall a, b :: a in s && b in s && cmp(a, b) >= 0 ==> cmp(b, a) <= 0
  }

  lemma {:induction false} InsertPermutes<T>(x: T, s: seq<T>, cmp: (T, T) -> int)
    ensures multiset(Insert(x, s, cmp)) == multiset(s) + multiset{x}
  {
    if s != [] && cmp(x, s[|s| - 1]) < 0 {
      var front := s[..|s| - 1];
      InsertPermutes(x, front, cmp);
      assert s == front + [s[|s| - 1]];
    }
  }

  /** Sorting only reorders: the result is a permutation of the input. */
  lemma {:induction false} SortPermutes<T>(s: seq<T>, cmp: (T, T) -> int)
    ensures multiset(Sort(s, cmp)) == multiset(s)
  {
    if s != [] {
      var front := s[..|s| - 1];
      SortPermutes(front, cmp);
      InsertPermutes(s[|s| - 1], Sort(front, cmp), cmp);
      assert s == front + [s[|s| - 1]];
    }
  }

  /** Inserting into sorted elements keeps them sorted, when `x` compares antisymmetrically with them. */
  lemma {:induction false} InsertSorted<T>(x: T, s: seq<T>, cmp: (T, T) -> int)
    requires Sorted(s, cmp)
    requires forall r :: r in s && cmp(x, r) >= 0 ==> cmp(r, x) <= 0
    ensures Sorted(Insert(x, s, cmp), cmp)
    ensures var r := Insert(x, s, cmp); r[|r| - 1] == x || r[|r| - 1] == s[|s| - 1]
  {
    if s != [] {
      var front, last := s[..|s| - 1], s[|s| - 1];
      if cmp(x, last) < 0 {
        assert forall r :: r in front ==> r in s;
        InsertSorted(x, front, cmp);
        var m := Insert(x, front, cmp);
        assert Insert(x, s, cmp) == m + [last];
        assert m[|m| - 1] == x || m[|m| - 1] == s[|s| - 2];
      } else {
        assert last in s;
      }
    }
  }

  /** With an antisymmetric comparator the result is sorted. */
  lemma {:induction false} SortSorted<T>(s: seq<T>, cmp: (T, T) -> int)
    requires Antisymmetric(s, cmp)
    ensures Sorted(Sort(s, cmp), cmp)
  {
    if s != [] {
      var front, last := s[..|s| - 1], s[|s| - 1];
      assert forall r :: r in front ==> r in s;
      SortSorted(front, cmp);
      SortPermutes(front, cmp);
      var sorted := Sort(front, cmp);
      forall r | r in sorted && cmp(last, r) >= 0 ensures cmp(r, last) <= 0 {
        assert r in multiset(sorted);
        assert r in front;
      }
      InsertSorted(last, sorted, cmp);
    }
  }

  /** Where the insertion stops, `x` lands between `s[..j]` and `s[j..]`. */
  lemma {:induction false} InsertPosition<T>(x: T, s: seq<T>, j: nat, cmp: (T, T) -> int)
    requires j <= |s|
    requires j == 0 || cmp(x, s[j - 1]) >= 0
    requires forall k :: j <= k < |s| ==> cmp(x, s[k]) < 0
    ensures Insert(x, s, cmp) == s[..j] + [x] + s[j..]
  {
    if j < |s| {
      var front := s[..|s| - 1];
      assert front[..j] == s[..j];
      InsertPosition(x, front, j, cmp);
      assert s[j..] == front[j..] + [s[|s| - 1]];
    } else {
      assert s[..j] == s;
    }
  }

  /** The shifting loop: elements from `j` up to `i - 1` that `x` compares below
    * move one step right, and `j` is where it stops; `a[j]` still holds its old element. */
  method ShiftUp<T>(a: array<T>, i: nat, x: T, cmp: (T, T) -> int) returns (j: nat)
    requires i < a.Length
    modifies a
    ensures j <= i
    ensures a[..] == old(a[..j + 1]) + old(a[j..i]) + old(a[i + 1..])
    ensures j == 0 || cmp(x, old(a[j - 1])) >= 0
    ensures forall k :: j <= k < i ==> cmp(x, old(a[k])) < 0
  {
    ghost var o := a[..];
    j := i;
    assert o[..j + 1] + o[j..i] + o[i + 1..] == o;
    while j > 0 && cmp(x, a[j - 1]) < 0
      invariant j <= i
      invariant a[..] == o[..j + 1] + o[j..i] + o[i + 1..]
      invariant forall k :: j <= k < i ==> cmp(x, o[k]) < 0
    {
      ShiftStep(o, i, j);
      a[j] := a[j - 1];
      j := j - 1;
    }
  }

  /** One step of the shift, on the contents: the element at `j - 1` is copied one place right. */
  lemma ShiftStep<T>(o: seq<T>, i: nat, j: nat)
    requires 0 < j <= i < |o|
    ensures (o[..j + 1] + o[j..i] + o[i + 1..])[j - 1] == o[j - 1]
    ensures (o[..j + 1] + o[j..i] + o[i + 1..])[j := o[j - 1]] == o[..j] + o[j - 1..i] + o[i + 1..]
  {
    var before := o[..j + 1] + o[j..i] + o[i + 1..];
    var after := o[..j] + o[j - 1..i] + o[i + 1..];
    assert |before[j := o[j - 1]]| == |after|;
    forall k | 0 <= k < |after| ensures before[j := o[j - 1]][k] == after[k] {
      if k < j {
      } else if k == j {
      } else if k <= i {
      } else {
      }
    }
  }

  /** Writing `x` where the shift stopped: `x` stands between `o[..j]` and `o[j..i]`. */
  lemma Placed<T>(o: seq<T>, i: nat, j: nat, x: T)
    requires j <= i < |o|
    ensures (o[..j + 1] + o[j..i] + o[i + 1..])[j := x] == (o[..i][..j] + [x] + o[..i][j..]) + o[i + 1..]
  {
    var before := o[..j + 1] + o[j..i] + o[i + 1..];
    var after := (o[..i][..j] + [x] + o[..i][j..]) + o[i + 1..];
    assert |before[j := x]| == |after|;
    forall k | 0 <= k < |after| ensures before[j := x][k] == after[k] {
      if k < j {
      } else if k == j {
      } else if k <= i {
      } else {
      }
    }
  }

  /** Inserting `a[i]` into the sorted prefix `a[..i]` in place. */
  method InsertAt<T>(a: array<T>, i: nat, cmp: (T, T) -> int)
    requires i < a.Length
    modifies a
    ensures a[..i + 1] == Insert(old(a[i]), old(a[..i]), cmp)
    ensures a[i + 1..] == old(a[i + 1..])
  {
    ghost var o := a[..];
    var x := a[i];
    var j := ShiftUp(a, i, x, cmp);
    a[j] := x;
    Placed(o, i, j, x);
    InsertPosition(x, o[..i], j, cmp);
    ghost var r := Insert(x, o[..i], cmp);
    assert a[..] == r + o[i + 1..];
    assert a[..i + 1] == (r + o[i + 1..])[..i + 1];
  }

  /** Sorting one more element is inserting it into the sorted elements before it. */
  lemma SortStep<T>(s: seq<T>, i: nat, cmp: (T, T) -> int)
    requires i < |s|
    ensures Sort(s[..i + 1], cmp) == Insert(s[i], Sort(s[..i], cmp), cmp)
  {
    assert s[..i + 1][..i] == s[..i];
  }

  /** The in-place sort, one element at a time. */
  method InsertionSort<T>(a: array<T>, cmp: (T, T) -> int)
    modifies a
    ensures a[..] == Sort(old(a[..]), cmp)
  {
    ghost var orig := a[..];
    for i := 0 to a.Length
      invariant a[..i] == Sort(orig[..i], cmp)
      invariant a[i..] == orig[i..]
    {
      assert a[i] == orig[i] by { assert a[i..][0] == orig[i..][0]; }
      SortStep(orig, i, cmp);
      InsertAt(a, i, cmp);
    }
    assert a[..a.Length] == a[..] && orig[..a.Length] == orig;
  }
}

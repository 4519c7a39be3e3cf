// A stable sort by an integer key, stated as a specification (sorted, a
// permutation, equal keys in their original order), the lemmas that make
// that specification precise, and an in-place insertion sort proved
// against it.

module StableSort {

  // ---------------------------------------------------------------------
  // What a stable sort promises

  predicate Sorted<T>(s: seq<T>, key: T -> int)
  {
    forall p, q :: 0 <= p < q < |s| ==> key(s[p]) <= key(s[q])
  }

  /** The elements of `s` whose key is `r`, in their order in `s`. */
  function WithKey<T>(s: seq<T>, key: T -> int, r: int): (t: seq<T>)
    ensures |t| <= |s|
  {
    if s == [] then []
    else WithKey(s[..|s| - 1], key, r) + (if key(s[|s| - 1]) == r then [s[|s| - 1]] else [])
  }

  /** Elements with equal keys keep their relative order: every group of equal keys is the same sequence. */
  ghost predicate SameGroups<T>(s: seq<T>, t: seq<T>, key: T -> int)
  {
    forall r :: WithKey(s, key, r) == WithKey(t, key, r)
  }

  /** `t` is `s` sorted stably by ascending key. */
  ghost predicate IsStableSort<T>(t: seq<T>, s: seq<T>, key: T -> int)
  {
    Sorted(t, key) && SameGroups(t, s, key) && multiset(t) == multiset(s)
  }

  lemma {:induction false} WithKeyAppend<T>(a: seq<T>, b: seq<T>, key: T -> int, r: int)
    ensures WithKey(a + b, key, r) == WithKey(a, key, r) + WithKey(b, key, r)
    decreases |b|
  {
    if b == [] {
      assert a + b == a;
    } else {
      var b' := b[..|b| - 1];
      assert (a + b)[..|a + b| - 1] == a + b';
      WithKeyAppend(a, b', key, r);
    }
  }

  /** `s` with the neighbours at `j - 1` and `j` exchanged. */
  function Swapped<T>(s: seq<T>, j: int): (t: seq<T>)
    requires 0 < j < |s|
    ensures |t| == |s| && t[j - 1] == s[j] && t[j] == s[j - 1]
    ensures forall k :: 0 <= k < |s| && k != j - 1 && k != j ==> t[k] == s[k]
  {
    s[..j - 1] + [s[j], s[j - 1]] + s[j + 1..]
  }

  /** Exchanging two neighbours with different keys keeps every group of equal keys, and the multiset. */
  lemma SwapKeepsGroups<T>(s: seq<T>, j: int, key: T -> int)
    requires 0 < j < |s| && key(s[j - 1]) != key(s[j])
    ensures SameGroups(Swapped(s, j), s, key)
    ensures multiset(Swapped(s, j)) == multiset(s)
  {
    var head, x, y, tail := s[..j - 1], s[j - 1], s[j], s[j + 1..];
    assert s == head + [x, y] + tail;
    assert Swapped(s, j) == head + [y, x] + tail;
    forall r ensures WithKey(Swapped(s, j), key, r) == WithKey(s, key, r) {
      WithKeyAppend(head + [x, y], tail, key, r);
      WithKeyAppend(head, [x, y], key, r);
      WithKeyAppend(head + [y, x], tail, key, r);
      WithKeyAppend(head, [y, x], key, r);
      assert [x, y][..1] == [x];
      assert [y, x][..1] == [y];
    }
  }

  /** An element whose key is `key(s[k])` is in that group. */
  lemma {:induction false} KeyPresent<T>(s: seq<T>, k: int, key: T -> int)
    requires 0 <= k < |s|
    ensures WithKey(s, key, key(s[k])) != []
    decreases |s|
  {
    if k < |s| - 1 {
      KeyPresent(s[..|s| - 1], k, key);
    }
  }

  /** A non-empty group has a member in `s`. */
  lemma {:induction false} KeyWitness<T>(s: seq<T>, key: T -> int, r: int) returns (k: int)
    requires WithKey(s, key, r) != []
    ensures 0 <= k < |s| && key(s[k]) == r
    decreases |s|
  {
    if key(s[|s| - 1]) == r {
      k := |s| - 1;
    } else {
      k := KeyWitness(s[..|s| - 1], key, r);
    }
  }

  /** The last element of a sorted sequence has the greatest key of any group present. */
  lemma LastIsGreatest<T>(t: seq<T>, u: seq<T>, key: T -> int)
    requires Sorted(t, key) && t != [] && u != [] && SameGroups(t, u, key)
    ensures key(u[|u| - 1]) <= key(t[|t| - 1])
  {
    var r := key(u[|u| - 1]);
    KeyPresent(u, |u| - 1, key);
    assert WithKey(t, key, r) == WithKey(u, key, r);
    var k := KeyWitness(t, key, r);
    if k < |t| - 1 {
      assert key(t[k]) <= key(t[|t| - 1]);
    }
  }

  /** Sequences with the same groups are empty together. */
  lemma NonEmptyGroups<T>(t: seq<T>, u: seq<T>, key: T -> int)
    requires SameGroups(t, u, key) && u != []
    ensures t != []
  {
    KeyPresent(u, |u| - 1, key);
    assert WithKey(t, key, key(u[|u| - 1])) == WithKey(u, key, key(u[|u| - 1]));
  }

  /**
   * The contract of a stable sort fixes its result: two sorted sequences with
   * the same groups of equal keys are equal.
   */
  lemma {:induction false} StableSortUnique<T>(t: seq<T>, u: seq<T>, key: T -> int)
    requires Sorted(t, key) && Sorted(u, key) && SameGroups(t, u, key)
    ensures t == u
    decreases |t|
  {
    if u != [] {
      NonEmptyGroups(t, u, key);
    }
    if t != [] {
      assert SameGroups(u, t, key);
      NonEmptyGroups(u, t, key);
      var x, y := t[|t| - 1], u[|u| - 1];
      LastIsGreatest(t, u, key);
      LastIsGreatest(u, t, key);
      var rx := key(x);
      assert key(y) == rx;
      var t', u' := t[..|t| - 1], u[..|u| - 1];
      forall r ensures WithKey(t', key, r) == WithKey(u', key, r) {
        assert WithKey(t, key, r) == WithKey(u, key, r);
        assert WithKey(t, key, r) == WithKey(t', key, r) + (if rx == r then [x] else []);
        assert WithKey(u, key, r) == WithKey(u', key, r) + (if rx == r then [y] else []);
        if r == rx {
          var gt, gu := WithKey(t', key, r), WithKey(u', key, r);
          assert gt + [x] == gu + [y];
          assert gt == (gt + [x])[..|gt|];
          assert gu == (gu + [y])[..|gu|];
          assert |gt| == |gu|;
        } else {
          assert WithKey(t', key, r) + [] == WithKey(t', key, r);
          assert WithKey(u', key, r) + [] == WithKey(u', key, r);
        }
      }
      assert WithKey(t, key, rx) == WithKey(u, key, rx);
      assert x == y by {
        assert WithKey(t, key, rx)[|WithKey(t, key, rx)| - 1] == x;
        assert WithKey(u, key, rx)[|WithKey(u, key, rx)| - 1] == y;
      }
      StableSortUnique(t', u', key);
      assert t == t' + [x];
      assert u == u' + [y];
    }
  }

  // ---------------------------------------------------------------------
  // The in-place sort

  /** The first `n` elements are in order. */
  predicate SortedPrefix<T>(s: seq<T>, n: int, key: T -> int)
  {
    forall p, q :: 0 <= p < q < n && q < |s| ==> key(s[p]) <= key(s[q])
  }

  /**
   * Insertion of `s[j]` into `s[..i + 1]` is under way: apart from the
   * element at `j`, the first `i + 1` elements are in order, and the element
   * at `j` is strictly smaller than all that follow it up to `i`.
   */
  predicate Inserting<T>(s: seq<T>, i: int, j: int, key: T -> int)
    requires 0 <= j <= i < |s|
  {
    (forall p, q :: 0 <= p < q <= i && p != j && q != j ==> key(s[p]) <= key(s[q])) &&
    (forall q :: j < q <= i ==> key(s[j]) < key(s[q]))
  }

  lemma InsertStart<T>(s: seq<T>, i: int, key: T -> int)
    requires 0 <= i < |s| && SortedPrefix(s, i, key)
    ensures Inserting(s, i, i, key)
  {
  }

  /** One exchange moves the inserted element a place to the left. */
  lemma InsertStep<T>(s: seq<T>, i: int, j: int, key: T -> int)
    requires 0 < j <= i < |s| && Inserting(s, i, j, key) && key(s[j]) < key(s[j - 1])
    ensures Inserting(Swapped(s, j), i, j - 1, key)
  {
    var t := Swapped(s, j);
    forall p, q | 0 <= p < q <= i && p != j - 1 && q != j - 1 ensures key(t[p]) <= key(t[q]) {
      if p == j {
        assert key(t[p]) == key(s[j - 1]);
      } else if q == j {
        assert key(s[p]) <= key(s[j - 1]);
      }
    }
  }

  /** The inserted element has stopped: the first `i + 1` elements are in order. */
  lemma InsertDone<T>(s: seq<T>, i: int, j: int, key: T -> int)
    requires 0 <= j <= i < |s| && Inserting(s, i, j, key) && (j == 0 || key(s[j - 1]) <= key(s[j]))
    ensures SortedPrefix(s, i + 1, key)
  {
    forall p, q | 0 <= p < q < i + 1 ensures key(s[p]) <= key(s[q]) {
      if q == j && p < j - 1 {
        assert key(s[p]) <= key(s[j - 1]);
      }
    }
  }

  /**
   * Array.prototype.sort with a comparator whose sign is that of
   * `key(a) - key(b)`: the sort is stable, and so is this insertion sort,
   * which exchanges neighbours only while they are strictly out of order.
   */
  method InsertionSort<T>(a: array<T>, key: T -> int)
    modifies a
    ensures IsStableSort(a[..], old(a[..]), key)
  {
    if a.Length == 0 {
      return;
    }
    for i := 1 to a.Length
      invariant SortedPrefix(a[..], i, key)
      invariant SameGroups(a[..], old(a[..]), key) && multiset(a[..]) == multiset(old(a[..]))
    {
      InsertLast(a, i, key);
    }
  }

  /** Moves `a[i]` left past every neighbour whose key is greater. */
  method InsertLast<T>(a: array<T>, i: int, key: T -> int)
    requires 0 < i < a.Length && SortedPrefix(a[..], i, key)
    modifies a
    ensures SortedPrefix(a[..], i + 1, key)
    ensures SameGroups(a[..], old(a[..]), key) && multiset(a[..]) == multiset(old(a[..]))
  {
    InsertStart(a[..], i, key);
    var j := i;
    while j > 0 && key(a[j]) < key(a[j - 1])
      invariant 0 <= j <= i && Inserting(a[..], i, j, key)
      invariant SameGroups(a[..], old(a[..]), key) && multiset(a[..]) == multiset(old(a[..]))
      decreases j
    {
      ghost var before := a[..];
      SwapKeepsGroups(before, j, key);
      InsertStep(before, i, j, key);
      a[j - 1], a[j] := a[j], a[j - 1];
      assert a[..] == Swapped(before, j);
      j := j - 1;
    }
    InsertDone(a[..], i, j, key);
  }
}

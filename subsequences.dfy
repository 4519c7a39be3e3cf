// Array.prototype.filter over a sequence and what it promises: the result
// is an order-preserving subsequence holding exactly the elements that pass
// the test, and two filters in a row are one filter by both tests.

module Subsequences {

  /** `a` appears in `b` at the strictly increasing positions `idx`. */
  ghost predicate SubsequenceAt<T>(a: seq<T>, b: seq<T>, idx: seq<int>)
  {
    |idx| == |a| &&
    (forall k :: 0 <= k < |a| ==> 0 <= idx[k] < |b| && a[k] == b[idx[k]]) &&
    (forall k, l :: 0 <= k < l < |a| ==> idx[k] < idx[l])
  }

  ghost predicate IsSubsequence<T>(a: seq<T>, b: seq<T>)
  {
    exists idx :: SubsequenceAt(a, b, idx)
  }

  /** `s.filter(keep)` */
  function Filter<T>(s: seq<T>, keep: T -> bool): (r: seq<T>)
    ensures |r| <= |s|
  {
    if s == [] then [] else (if keep(s[0]) then [s[0]] else []) + Filter(s[1..], keep)
  }

  /** Both tests pass. */
  function Both<T>(p: T -> bool, q: T -> bool): T -> bool
  {
    x => p(x) && q(x)
  }

  /** Shifts every position of `idx` one to the right. */
  function Shift(idx: seq<int>): (r: seq<int>)
    ensures |r| == |idx| && forall k :: 0 <= k < |idx| ==> r[k] == idx[k] + 1
  {
    if idx == [] then [] else [idx[0] + 1] + Shift(idx[1..])
  }

  /** A subsequence of `b` is one of `[x] + b`. */
  lemma SubsequenceSkip<T>(a: seq<T>, b: seq<T>, x: T, idx: seq<int>)
    requires SubsequenceAt(a, b, idx)
    ensures SubsequenceAt(a, [x] + b, Shift(idx))
  {
    var b' := [x] + b;
    forall k | 0 <= k < |a| ensures 0 <= Shift(idx)[k] < |b'| && a[k] == b'[Shift(idx)[k]] {
      assert b'[idx[k] + 1] == b[idx[k]];
    }
  }

  /** Keeping the same first element extends a subsequence. */
  lemma SubsequenceCons<T>(a: seq<T>, b: seq<T>, x: T, idx: seq<int>)
    requires SubsequenceAt(a, b, idx)
    ensures SubsequenceAt([x] + a, [x] + b, [0] + Shift(idx))
  {
    var a', b', idx' := [x] + a, [x] + b, [0] + Shift(idx);
    forall k | 0 < k < |a'| ensures 0 <= idx'[k] < |b'| && a'[k] == b'[idx'[k]] {
      assert a'[k] == a[k - 1] && idx'[k] == idx[k - 1] + 1 && b'[idx[k - 1] + 1] == b[idx[k - 1]];
    }
    forall k, l | 0 <= k < l < |a'| ensures idx'[k] < idx'[l] {
      assert idx'[l] == idx[l - 1] + 1;
      if k > 0 {
        assert idx'[k] == idx[k - 1] + 1;
      }
    }
  }

  lemma {:induction false} FilterIsSubsequence<T>(s: seq<T>, keep: T -> bool) returns (idx: seq<int>)
    ensures SubsequenceAt(Filter(s, keep), s, idx)
    decreases |s|
  {
    if s == [] {
      idx := [];
    } else {
      var rest := FilterIsSubsequence(s[1..], keep);
      assert s == [s[0]] + s[1..];
      if keep(s[0]) {
        SubsequenceCons(Filter(s[1..], keep), s[1..], s[0], rest);
        idx := [0] + Shift(rest);
      } else {
        SubsequenceSkip(Filter(s[1..], keep), s[1..], s[0], rest);
        idx := Shift(rest);
      }
    }
  }

  /** An element is in the result exactly when it is in `s` and passes the test. */
  lemma {:induction false} FilterMembers<T>(s: seq<T>, keep: T -> bool, x: T)
    ensures x in Filter(s, keep) <==> x in s && keep(x)
    decreases |s|
  {
    if s != [] {
      FilterMembers(s[1..], keep, x);
      assert s == [s[0]] + s[1..];
    }
  }

  /** A test every element passes keeps the whole sequence. */
  lemma {:induction false} FilterKeepsAll<T>(s: seq<T>, keep: T -> bool)
    requires forall k :: 0 <= k < |s| ==> keep(s[k])
    ensures Filter(s, keep) == s
    decreases |s|
  {
    if s != [] {
      FilterKeepsAll(s[1..], keep);
      assert s == [s[0]] + s[1..];
    }
  }

  lemma {:induction false} FilterAppend<T>(a: seq<T>, b: seq<T>, keep: T -> bool)
    ensures Filter(a + b, keep) == Filter(a, keep) + Filter(b, keep)
    decreases |a|
  {
    if a == [] {
      assert a + b == b;
    } else {
      var head := if keep(a[0]) then [a[0]] else [];
      assert (a + b)[0] == a[0] && (a + b)[1..] == a[1..] + b;
      assert Filter(a + b, keep) == head + Filter(a[1..] + b, keep);
      FilterAppend(a[1..], b, keep);
      assert Filter(a, keep) == head + Filter(a[1..], keep);
    }
  }

  /** Filtering by `p` and then by `q` is filtering by both. */
  lemma {:induction false} FilterFilter<T>(s: seq<T>, p: T -> bool, q: T -> bool)
    ensures Filter(Filter(s, p), q) == Filter(s, Both(p, q))
    decreases |s|
  {
    if s != [] {
      FilterFilter(s[1..], p, q);
      var head := if p(s[0]) then [s[0]] else [];
      FilterAppend(head, Filter(s[1..], p), q);
      if p(s[0]) {
        assert head[1..] == [];
      }
    }
  }

  /** A prefix is a subsequence. */
  lemma PrefixIsSubsequence<T>(s: seq<T>, n: int) returns (idx: seq<int>)
    requires 0 <= n <= |s|
    ensures SubsequenceAt(s[..n], s, idx)
  {
    idx := seq(n, k => k);
  }

  /** A subsequence of a subsequence is a subsequence. */
  lemma SubsequenceTrans<T>(a: seq<T>, b: seq<T>, c: seq<T>, ab: seq<int>, bc: seq<int>) returns (ac: seq<int>)
    requires SubsequenceAt(a, b, ab) && SubsequenceAt(b, c, bc)
    ensures SubsequenceAt(a, c, ac)
  {
    ac := seq(|a|, k requires 0 <= k < |a| => bc[ab[k]]);
  }
}

/**
 * Order-preserving filtering of a list, the shape shared by every loop of the
 * source that walks an ArrayList and appends the items that pass a test.
 */
module Seqs {

  /** The items of `s` that satisfy `p`, in their original order. */
  function Filter<T>(s: seq<T>, p: T -> bool): (r: seq<T>)
    ensures |r| <= |s|
  {
    if s == [] then []
    else
      var init, last := s[..|s| - 1], s[|s| - 1];
      Filter(init, p) + (if p(last) then [last] else [])
  }

  /** An item is kept exactly when it is in the list and passes the test. */
  lemma {:induction false} FilterMembers<T>(s: seq<T>, p: T -> bool)
    ensures forall x | x in Filter(s, p) :: x in s && p(x)
    ensures forall x | x in s && p(x) :: x in Filter(s, p)
  {
    if s != [] {
      var init, last := s[..|s| - 1], s[|s| - 1];
      assert s == init + [last];
      FilterMembers(init, p);
    }
  }

  /** Filtering keeps each item at most as often as it occurs. */
  lemma {:induction false} FilterMultiset<T>(s: seq<T>, p: T -> bool)
    ensures multiset(Filter(s, p)) <= multiset(s)
  {
    if s != [] {
      var init, last := s[..|s| - 1], s[|s| - 1];
      assert s == init + [last];
      FilterMultiset(init, p);
    }
  }

  /** `a` is obtained from `b` by deleting items, without reordering. */
  ghost predicate IsSubsequence<T>(a: seq<T>, b: seq<T>)
  {
    if a == [] then true
    else if b == [] then false
    else if a[|a| - 1] == b[|b| - 1] then IsSubsequence(a[..|a| - 1], b[..|b| - 1])
    else IsSubsequence(a, b[..|b| - 1])
  }

  lemma {:induction false} FilterIsSubsequence<T>(s: seq<T>, p: T -> bool)
    ensures IsSubsequence(Filter(s, p), s)
  {
    if s != [] {
      var init, last := s[..|s| - 1], s[|s| - 1];
      assert s == init + [last];
      FilterIsSubsequence(init, p);
      if p(last) {
        assert Filter(s, p) == Filter(init, p) + [last];
        SubsequenceExtendBoth(Filter(init, p), init, last);
      } else {
        assert Filter(s, p) == Filter(init, p);
        SubsequenceAppend(Filter(init, p), init, last);
      }
    }
  }

  lemma SubsequenceExtendBoth<T>(a: seq<T>, b: seq<T>, x: T)
    requires IsSubsequence(a, b)
    ensures IsSubsequence(a + [x], b + [x])
  {
    assert (a + [x])[..|a|] == a;
    assert (b + [x])[..|b|] == b;
  }

  /** Appending to the longer list keeps the subsequence relation. */
  lemma {:induction false} SubsequenceAppend<T>(a: seq<T>, b: seq<T>, x: T)
    requires IsSubsequence(a, b)
    ensures IsSubsequence(a, b + [x])
    decreases |a| + |b|, 1
  {
    assert (b + [x])[..|b + [x]| - 1] == b;
    if a != [] && a[|a| - 1] == x {
      SubsequenceDropLast(a, b);
    }
  }

  /** Dropping the last item of the shorter list keeps the subsequence relation. */
  lemma {:induction false} SubsequenceDropLast<T>(a: seq<T>, b: seq<T>)
    requires a != [] && IsSubsequence(a, b)
    ensures IsSubsequence(a[..|a| - 1], b)
    decreases |a| + |b|, 0
  {
    var a', b' := a[..|a| - 1], b[..|b| - 1];
    assert b' + [b[|b| - 1]] == b;
    if a[|a| - 1] != b[|b| - 1] {
      SubsequenceDropLast(a, b');
    }
    SubsequenceAppend(a', b', b[|b| - 1]);
  }

  /** Filtering distributes over concatenation. */
  lemma {:induction false} FilterAppend<T>(a: seq<T>, b: seq<T>, p: T -> bool)
    ensures Filter(a + b, p) == Filter(a, p) + Filter(b, p)
    decreases |b|
  {
    if b == [] {
      assert a + b == a;
    } else {
      var init, last := b[..|b| - 1], b[|b| - 1];
      assert (a + b)[..|a + b| - 1] == a + init;
      assert (a + b)[|a + b| - 1] == last;
      FilterAppend(a, init, p);
    }
  }

  /** A filter step: the filter of a one-longer prefix. */
  lemma FilterPrefixStep<T>(s: seq<T>, p: T -> bool, i: nat)
    requires i < |s|
    ensures Filter(s[..i + 1], p) == Filter(s[..i], p) + (if p(s[i]) then [s[i]] else [])
  {
    assert s[..i + 1][..i] == s[..i];
  }

  /** Filtering by a predicate that is one of two exclusive ones splits the multiset in two. */
  lemma {:induction false} FilterSplit<T>(s: seq<T>, either: T -> bool, p: T -> bool, q: T -> bool)
    requires forall x | x in s :: either(x) == (p(x) || q(x)) && !(p(x) && q(x))
    ensures multiset(Filter(s, either)) == multiset(Filter(s, p)) + multiset(Filter(s, q))
  {
    if s != [] {
      var init := s[..|s| - 1];
      FilterSplit(init, either, p, q);
    }
  }

  /** Removing the element at position m. */
  function RemoveAt<T>(s: seq<T>, m: nat): (r: seq<T>)
    requires m < |s|
    ensures |r| == |s| - 1
    ensures multiset(r) + multiset{s[m]} == multiset(s)
  {
    assert s == s[..m] + [s[m]] + s[m + 1..];
    s[..m] + s[m + 1..]
  }
}

/**
 * Sequence helpers for the listings: an order-preserving filter (the loops
 * that fill an ArrayList, and the stream filters), sub-lists, and the
 * keyed order of the store.
 */
module Collections {

  function Min(a: int, b: int): int {
    if a <= b then a else b
  }

  /** The elements of s that satisfy p, in the order of s. */
  function Filter<T(!new)>(s: seq<T>, p: T -> bool): (r: seq<T>)
    ensures |r| <= |s|
    ensures forall x {:trigger x in r} :: x in r <==> x in s && p(x)
    ensures forall i :: 0 <= i < |r| ==> p(r[i])
  {
    if s == [] then []
    else
      var init, last := s[..|s| - 1], s[|s| - 1];
      assert s == init + [last];
      Filter(init, p) + (if p(last) then [last] else [])
  }

  /** Filtering one more element appends it when it passes. */
  lemma FilterSnoc<T(!new)>(s: seq<T>, x: T, p: T -> bool)
    ensures Filter(s + [x], p) == Filter(s, p) + (if p(x) then [x] else [])
  {
    assert (s + [x])[..|s|] == s;
  }

  /** a is obtained from b by deleting elements, keeping the rest in order. */
  ghost predicate IsSubsequence<T>(a: seq<T>, b: seq<T>)
    decreases |b|
  {
    a == [] ||
    (b != [] &&
      ((a[|a| - 1] == b[|b| - 1] && IsSubsequence(a[..|a| - 1], b[..|b| - 1]))
       || IsSubsequence(a, b[..|b| - 1])))
  }

  /** When p implies q on s, the p-filter of s is a sub-list of its q-filter. */
  lemma {:induction false} FilterMonotone<T(!new)>(s: seq<T>, p: T -> bool, q: T -> bool)
    requires forall x :: x in s && p(x) ==> q(x)
    ensures IsSubsequence(Filter(s, p), Filter(s, q))
  {
    if s != [] {
      var init, last := s[..|s| - 1], s[|s| - 1];
      assert s == init + [last];
      assert forall x :: x in init ==> x in s;
      FilterMonotone(init, p, q);
      var fp, fq := Filter(init, p), Filter(init, q);
      assert Filter(s, p) == fp + (if p(last) then [last] else []);
      assert Filter(s, q) == fq + (if q(last) then [last] else []);
      if p(last) {
        SnocSubsequence(fp, fq, last);
      } else if q(last) {
        assert Filter(s, p) == fp && Filter(s, q) == fq + [last];
        ExtendSubsequence(fp, fq, last);
      } else {
        assert Filter(s, p) == fp && Filter(s, q) == fq;
      }
    }
  }

  lemma SnocSubsequence<T>(a: seq<T>, b: seq<T>, x: T)
    requires IsSubsequence(a, b)
    ensures IsSubsequence(a + [x], b + [x])
  {
    assert (a + [x])[..|a|] == a;
    assert (b + [x])[..|b|] == b;
  }

  lemma ExtendSubsequence<T>(a: seq<T>, b: seq<T>, x: T)
    requires IsSubsequence(a, b)
    ensures IsSubsequence(a, b + [x])
  {
    assert (b + [x])[..|b|] == b;
  }

  /** Every filter of s is a sub-list of s. */
  lemma FilterIsSubsequence<T(!new)>(s: seq<T>, p: T -> bool)
    ensures IsSubsequence(Filter(s, p), s)
  {
    FilterMonotone(s, p, _ => true);
    FilterAll(s);
  }

  /** The filter that keeps everything is the identity. */
  lemma {:induction false} FilterAll<T(!new)>(s: seq<T>)
    ensures Filter(s, _ => true) == s
  {
    if s != [] {
      FilterAll(s[..|s| - 1]);
    }
  }

  /** Filtering by p and then by q equals filtering once by both. */
  lemma {:induction false} FilterFilter<T(!new)>(s: seq<T>, p: T -> bool, q: T -> bool, pq: T -> bool)
    requires forall x :: pq(x) == (p(x) && q(x))
    ensures Filter(Filter(s, p), q) == Filter(s, pq)
  {
    if s != [] {
      var init, last := s[..|s| - 1], s[|s| - 1];
      FilterFilter(init, p, q, pq);
      assert Filter(s, p) == Filter(init, p) + (if p(last) then [last] else []);
      assert Filter(s, pq) == Filter(init, pq) + (if pq(last) then [last] else []);
      if p(last) {
        FilterSnoc(Filter(init, p), last, q);
      } else {
        assert Filter(s, p) == Filter(init, p);
        assert Filter(s, pq) == Filter(init, pq);
      }
    }
  }

  /**
   * Two filters whose predicates disagree on every element of s split s:
   * each element lands in exactly one of them.
   */
  lemma {:induction false} FilterPartition<T(!new)>(s: seq<T>, p: T -> bool, q: T -> bool)
    requires forall x :: x in s ==> p(x) != q(x)
    ensures multiset(Filter(s, p)) + multiset(Filter(s, q)) == multiset(s)
    ensures |Filter(s, p)| + |Filter(s, q)| == |s|
  {
    if s != [] {
      var init, last := s[..|s| - 1], s[|s| - 1];
      assert s == init + [last];
      FilterPartition(init, p, q);
    }
  }

  /** Filtering one more element of a prefix of s. */
  lemma FilterPrefixStep<T(!new)>(s: seq<T>, i: nat, p: T -> bool)
    requires i < |s|
    ensures Filter(s[..i + 1], p) == Filter(s[..i], p) + (if p(s[i]) then [s[i]] else [])
  {
    assert s[..i + 1] == s[..i] + [s[i]];
    FilterSnoc(s[..i], s[i], p);
  }

  /** Filters with predicates that agree on every element of s are the same. */
  lemma {:induction false} FilterExtensional<T(!new)>(s: seq<T>, p: T -> bool, q: T -> bool)
    requires forall x :: x in s ==> p(x) == q(x)
    ensures Filter(s, p) == Filter(s, q)
  {
    if s != [] {
      var init, last := s[..|s| - 1], s[|s| - 1];
      assert s == init + [last];
      FilterExtensional(init, p, q);
      FilterSnoc(init, last, p);
      FilterSnoc(init, last, q);
    }
  }

  /** No key occurs twice. */
  ghost predicate Distinct<T>(s: seq<T>) {
    forall i, j :: 0 <= i < j < |s| ==> s[i] != s[j]
  }

  /** Walking a sequence without repetitions: the next element has not been seen yet. */
  lemma DistinctNext<T>(s: seq<T>, i: nat)
    requires Distinct(s) && i < |s|
    ensures s[..i + 1] == s[..i] + [s[i]]
    ensures s[i] !in s[..i]
  {
    assert s[..i + 1] == s[..i] + [s[i]];
  }

  /** The test "is not k". */
  function Except<T(==)>(k: T): T -> bool {
    x => x != k
  }

  /** s with every occurrence of k removed, the rest in order. */
  function Without<T(==,!new)>(s: seq<T>, k: T): (r: seq<T>)
    ensures r == Filter(s, Except(k))
    ensures forall i :: 0 <= i < |r| ==> r[i] in s && r[i] != k
    ensures forall i :: 0 <= i < |s| && s[i] != k ==> s[i] in r
    ensures Distinct(s) ==> Distinct(r)
    ensures k !in s ==> r == s
  {
    if s == [] then []
    else
      var init, last := s[..|s| - 1], s[|s| - 1];
      assert s == init + [last];
      var w := Without(init, k);
      if last == k then w else w + [last]
  }
}

/** Order-preserving filtering of sequences, and the subsequence relation it produces. */
module Seqs {

  /** Array filtering: the elements of `s` satisfying `p`, in their original order. */
  function Filter<T>(s: seq<T>, p: T -> bool): seq<T>
    decreases |s|
  {
    if s == [] then []
    else Filter(s[..|s| - 1], p) + (if p(s[|s| - 1]) then [s[|s| - 1]] else [])
  }

  /** `a` is obtained from `b` by deleting elements, keeping the order of the rest.
      The last element of `a` is matched greedily against the last occurrence in `b`. */
  predicate IsSubsequence<T(==)>(a: seq<T>, b: seq<T>)
    decreases |b|
  {
    if a == [] then true
    else if b == [] then false
    else if a[|a| - 1] == b[|b| - 1] then IsSubsequence(a[..|a| - 1], b[..|b| - 1])
    else IsSubsequence(a, b[..|b| - 1])
  }

  lemma {:induction false} FilterLength<T>(s: seq<T>, p: T -> bool)
    ensures |Filter(s, p)| <= |s|
    decreases |s|
  {
    if s != [] { FilterLength(s[..|s| - 1], p); }
  }

  /** An element survives the filter iff it was there and satisfies the predicate. */
  lemma {:induction false} FilterMembership<T>(s: seq<T>, p: T -> bool, x: T)
    ensures x in Filter(s, p) <==> x in s && p(x)
    decreases |s|
  {
    if s != [] {
      var init := s[..|s| - 1];
      FilterMembership(init, p, x);
      assert s == init + [s[|s| - 1]];
    }
  }

  lemma FilterAll<T>(s: seq<T>, p: T -> bool)
    ensures forall x :: x in Filter(s, p) <==> x in s && p(x)
  {
    forall x ensures x in Filter(s, p) <==> x in s && p(x) { FilterMembership(s, p, x); }
  }

  lemma {:induction false} FilterIsSubsequence<T>(s: seq<T>, p: T -> bool)
    ensures IsSubsequence(Filter(s, p), s)
    decreases |s|
  {
    if s != [] {
      var init, last := s[..|s| - 1], s[|s| - 1];
      FilterIsSubsequence(init, p);
      var a := Filter(s, p);
      if p(last) {
        assert a[..|a| - 1] == Filter(init, p);
      } else if a != [] {
        assert a == Filter(init, p);
        assert a[|a| - 1] in Filter(init, p);
        FilterMembership(init, p, a[|a| - 1]);
        assert a[|a| - 1] != last;
        assert s[..|s| - 1] == init;
        assert IsSubsequence(a, init);
      }
    }
  }

  /** Filtering twice is filtering once by the conjunction. */
  lemma {:induction false} FilterFilter<T>(s: seq<T>, p: T -> bool, q: T -> bool, pq: T -> bool)
    requires forall x :: pq(x) == (p(x) && q(x))
    ensures Filter(Filter(s, p), q) == Filter(s, pq)
    decreases |s|
  {
    if s != [] {
      var init, last := s[..|s| - 1], s[|s| - 1];
      FilterFilter(init, p, q, pq);
      var once := Filter(init, p) + (if p(last) then [last] else []);
      assert once == Filter(s, p);
      if p(last) {
        assert once[..|once| - 1] == Filter(init, p);
        assert once[|once| - 1] == last;
        assert Filter(once, q) == Filter(Filter(init, p), q) + (if q(last) then [last] else []);
      } else {
        assert once == Filter(init, p);
        assert !pq(last);
        assert Filter(s, pq) == Filter(init, pq);
      }
    }
  }

  /** Filters by predicates that agree everywhere give the same sequence. */
  lemma {:induction false} FilterExt<T>(s: seq<T>, p: T -> bool, q: T -> bool)
    requires forall x :: p(x) == q(x)
    ensures Filter(s, p) == Filter(s, q)
    decreases |s|
  {
    if s != [] { FilterExt(s[..|s| - 1], p, q); }
  }

  /** A predicate and its negation partition a sequence. */
  lemma {:induction false} FilterComplement<T>(s: seq<T>, p: T -> bool, notP: T -> bool)
    requires forall x :: notP(x) == !p(x)
    ensures |Filter(s, p)| + |Filter(s, notP)| == |s|
    ensures multiset(Filter(s, p)) + multiset(Filter(s, notP)) == multiset(s)
    decreases |s|
  {
    if s != [] {
      var init := s[..|s| - 1];
      FilterComplement(init, p, notP);
      assert s == init + [s[|s| - 1]];
    }
  }

  /** A predicate implied by another keeps at least as many elements. */
  lemma {:induction false} FilterMono<T>(s: seq<T>, p: T -> bool, q: T -> bool)
    requires forall x :: p(x) ==> q(x)
    ensures |Filter(s, p)| <= |Filter(s, q)|
    decreases |s|
  {
    if s != [] { FilterMono(s[..|s| - 1], p, q); }
  }

  /** Filtering distributes over concatenation. */
  lemma {:induction false} FilterAppend<T>(a: seq<T>, b: seq<T>, p: T -> bool)
    ensures Filter(a + b, p) == Filter(a, p) + Filter(b, p)
    decreases |b|
  {
    if b != [] {
      var init := b[..|b| - 1];
      FilterAppend(a, init, p);
      assert (a + b)[..|a + b| - 1] == a + init;
      assert (a + b)[|a + b| - 1] == b[|b| - 1];
    } else {
      assert a + b == a;
    }
  }

  lemma FilterSingleton<T>(x: T, p: T -> bool)
    ensures Filter([x], p) == if p(x) then [x] else []
  {
    assert [x][..0] == [];
  }

  /** Each element occurs in the filtered sequence as often as in the input if it satisfies the
      predicate, and not at all otherwise. */
  lemma {:induction false} FilterMultiplicity<T>(s: seq<T>, p: T -> bool, x: T)
    ensures multiset(Filter(s, p))[x] == if p(x) then multiset(s)[x] else 0
    decreases |s|
  {
    if s != [] {
      FilterMultiplicity(s[..|s| - 1], p, x);
      assert s == s[..|s| - 1] + [s[|s| - 1]];
    }
  }

  /** Sequences holding the same elements, in whatever order, keep the same elements under any
      filter, and so equally many. */
  lemma FilterSameMultiset<T>(a: seq<T>, b: seq<T>, p: T -> bool)
    requires multiset(a) == multiset(b)
    ensures multiset(Filter(a, p)) == multiset(Filter(b, p))
    ensures |Filter(a, p)| == |Filter(b, p)|
  {
    var fa, fb := multiset(Filter(a, p)), multiset(Filter(b, p));
    forall x ensures fa[x] == fb[x] {
      FilterMultiplicity(a, p, x);
      FilterMultiplicity(b, p, x);
    }
    MultisetExt(fa, fb);
    assert |fa| == |Filter(a, p)| && |fb| == |Filter(b, p)|;
  }

  lemma MultisetExt<T>(a: multiset<T>, b: multiset<T>)
    requires forall x :: a[x] == b[x]
    ensures a == b
  {
  }

  /** A filter that keeps everything is the identity. */
  lemma {:induction false} FilterTrue<T>(s: seq<T>, p: T -> bool)
    requires forall x :: x in s ==> p(x)
    ensures Filter(s, p) == s
    decreases |s|
  {
    if s != [] {
      assert s == s[..|s| - 1] + [s[|s| - 1]];
      FilterTrue(s[..|s| - 1], p);
    }
  }
}

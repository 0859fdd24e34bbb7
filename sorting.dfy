/** Stable sorting by a two-level integer key.

    Both comparators of the application (due-date order in the task list, completion-then-priority
    order of calendar indicators) compare a primary criterion and then a secondary one, so each is
    the lexicographic order on a pair of integers computed from the element. */
module Sorting {
  import opened Seqs

  datatype Key = Key(major: int, minor: int)

  /** The comparator returns a negative number: `a` must come first. */
  predicate KeyLess(a: Key, b: Key) {
    a.major < b.major || (a.major == b.major && a.minor < b.minor)
  }

  /** The comparator does not put `b` before `a`. */
  predicate KeyLe(a: Key, b: Key) {
    !KeyLess(b, a)
  }

  ghost predicate SortedByKey<T>(s: seq<T>, key: T -> Key) {
    forall i, j :: 0 <= i < j < |s| ==> KeyLe(key(s[i]), key(s[j]))
  }

  /** Places `x` in front of the first element of `s` it is not strictly after. */
  function Insert<T>(x: T, s: seq<T>, key: T -> Key): seq<T>
    decreases |s|
  {
    if s == [] || !KeyLess(key(s[0]), key(x)) then [x] + s
    else [s[0]] + Insert(x, s[1..], key)
  }

  /** Stable insertion sort: elements with equal keys keep their input order. */
  function SortByKey<T>(s: seq<T>, key: T -> Key): (r: seq<T>)
    ensures |r| == |s|
    decreases |s|
  {
    if s == [] then []
    else
      var rest := SortByKey(s[1..], key);
      InsertPermutes(s[0], rest, key);
      assert |multiset(Insert(s[0], rest, key))| == |rest| + 1;
      Insert(s[0], rest, key)
  }

  lemma {:induction false} InsertPermutes<T>(x: T, s: seq<T>, key: T -> Key)
    ensures multiset(Insert(x, s, key)) == multiset(s) + multiset{x}
    decreases |s|
  {
    if s != [] && KeyLess(key(s[0]), key(x)) {
      InsertPermutes(x, s[1..], key);
      assert s == [s[0]] + s[1..];
    }
  }

  lemma {:induction false} InsertSorted<T>(x: T, s: seq<T>, key: T -> Key)
    requires SortedByKey(s, key)
    ensures SortedByKey(Insert(x, s, key), key)
    decreases |s|
  {
    if s != [] && KeyLess(key(s[0]), key(x)) {
      var rest := s[1..];
      assert SortedByKey(rest, key) by {
        forall i, j | 0 <= i < j < |rest| ensures KeyLe(key(rest[i]), key(rest[j])) {
          assert rest[i] == s[i + 1] && rest[j] == s[j + 1];
        }
      }
      InsertSorted(x, rest, key);
      var r := Insert(x, rest, key);
      InsertPermutes(x, rest, key);
      forall m | 0 <= m < |r| ensures KeyLe(key(s[0]), key(r[m])) {
        assert r[m] in multiset(r);
        if r[m] != x {
          assert r[m] in multiset(rest);
          var k :| 0 <= k < |rest| && rest[k] == r[m];
          assert rest[k] == s[k + 1];
        }
      }
      var out := [s[0]] + r;
      forall i, j | 0 <= i < j < |out| ensures KeyLe(key(out[i]), key(out[j])) {
        if i > 0 { assert out[i] == r[i - 1] && out[j] == r[j - 1]; }
        else { assert out[j] == r[j - 1]; }
      }
    } else {
      var out := [x] + s;
      forall i, j | 0 <= i < j < |out| ensures KeyLe(key(out[i]), key(out[j])) {
        if i > 0 { assert out[i] == s[i - 1] && out[j] == s[j - 1]; }
        else {
          assert out[j] == s[j - 1];
          assert KeyLe(key(s[0]), key(s[j - 1]));
        }
      }
    }
  }

  /** The sorted sequence is a permutation of the input. */
  lemma {:induction false} SortPermutes<T>(s: seq<T>, key: T -> Key)
    ensures multiset(SortByKey(s, key)) == multiset(s)
    decreases |s|
  {
    if s != [] {
      SortPermutes(s[1..], key);
      InsertPermutes(s[0], SortByKey(s[1..], key), key);
      assert s == [s[0]] + s[1..];
    }
  }

  /** The sorted sequence is ordered by the key. */
  lemma {:induction false} SortSorts<T>(s: seq<T>, key: T -> Key)
    ensures SortedByKey(SortByKey(s, key), key)
    decreases |s|
  {
    if s != [] {
      SortSorts(s[1..], key);
      InsertSorted(s[0], SortByKey(s[1..], key), key);
    }
  }

  /** The elements whose key is `k`. */
  function KeyIs<T>(key: T -> Key, k: Key): T -> bool {
    x => key(x) == k
  }

  /** Insertion passes only elements with a strictly smaller key, so among the elements with
      `x`'s key, `x` lands first. */
  lemma {:induction false} InsertStable<T>(x: T, s: seq<T>, key: T -> Key, k: Key)
    ensures Filter(Insert(x, s, key), KeyIs(key, k))
            == (if key(x) == k then [x] else []) + Filter(s, KeyIs(key, k))
    decreases |s|
  {
    var p := KeyIs(key, k);
    FilterSingleton(x, p);
    if s == [] || !KeyLess(key(s[0]), key(x)) {
      FilterAppend([x], s, p);
    } else {
      InsertStable(x, s[1..], key, k);
      FilterSingleton(s[0], p);
      FilterAppend([s[0]], Insert(x, s[1..], key), p);
      FilterAppend([s[0]], s[1..], p);
      assert s == [s[0]] + s[1..];
    }
  }

  /** The sort is stable: the elements with any one key appear in the sorted sequence in the
      order they had in the input. */
  lemma {:induction false} SortStable<T>(s: seq<T>, key: T -> Key, k: Key)
    ensures Filter(SortByKey(s, key), KeyIs(key, k)) == Filter(s, KeyIs(key, k))
    decreases |s|
  {
    if s != [] {
      var p := KeyIs(key, k);
      SortStable(s[1..], key, k);
      InsertStable(s[0], SortByKey(s[1..], key), key, k);
      FilterSingleton(s[0], p);
      FilterAppend([s[0]], s[1..], p);
      assert s == [s[0]] + s[1..];
    }
  }

  /** `Array.prototype.sort` with a key comparator, applied in place. The elements of `a` are
      inserted one at a time, from the right, into the sorted suffix. */
  method SortInPlace<T>(a: array<T>, key: T -> Key)
    modifies a
    ensures a[..] == SortByKey(old(a[..]), key)
  {
    ghost var orig := a[..];
    var i := a.Length;
    while i > 0
      invariant 0 <= i <= a.Length
      invariant a[..] == orig[..i] + SortByKey(orig[i..], key)
    {
      i := i - 1;
      assert orig[i..] == [orig[i]] + orig[i + 1..];
      assert a[..] == orig[..i] + [orig[i]] + SortByKey(orig[i + 1..], key);
      InsertAt(a, i, key);
      assert orig[..i + 1][..i] == orig[..i];
    }
    assert orig[0..] == orig;
  }

  /** Moves `a[i]` rightwards past the elements of the suffix that sort strictly before it. */
  method InsertAt<T>(a: array<T>, i: nat, key: T -> Key)
    requires i < a.Length
    modifies a
    ensures a[..] == old(a[..i]) + Insert(old(a[i]), old(a[i + 1..]), key)
  {
    ghost var pre, t := a[..i], a[i + 1..];
    var x := a[i];
    var j := i;
    assert a[..] == pre + [x] + t;
    assert t[..0] == [] && t[0..] == t;
    while j + 1 < a.Length && KeyLess(key(a[j + 1]), key(x))
      invariant i <= j < a.Length
      invariant |pre| == i && |t| == a.Length - i - 1
      invariant a[..] == pre + t[..j - i] + [x] + t[j - i..]
      invariant forall m :: 0 <= m < j - i ==> KeyLess(key(t[m]), key(x))
    {
      ghost var k := j - i;
      ghost var before := a[..];
      SwapStep(pre, t, x, k);
      a[j] := a[j + 1];
      a[j + 1] := x;
      assert a[..] == before[j := t[k]][j + 1 := x];
      j := j + 1;
    }
    InsertSplits(x, t, j - i, key);
    assert a[..] == pre + (t[..j - i] + [x] + t[j - i..]);
  }

  /** `Insert` puts `x` right after the run of elements that sort strictly before it. */
  lemma {:induction false} InsertSplits<T>(x: T, t: seq<T>, k: nat, key: T -> Key)
    requires k <= |t|
    requires forall m :: 0 <= m < k ==> KeyLess(key(t[m]), key(x))
    requires k == |t| || !KeyLess(key(t[k]), key(x))
    ensures Insert(x, t, key) == t[..k] + [x] + t[k..]
    decreases k
  {
    if k > 0 {
      var rest := t[1..];
      forall m | 0 <= m < k - 1 ensures KeyLess(key(rest[m]), key(x)) {
        assert rest[m] == t[m + 1];
      }
      assert k - 1 < |rest| ==> rest[k - 1] == t[k];
      InsertSplits(x, rest, k - 1, key);
      assert t[..k] == [t[0]] + rest[..k - 1];
      assert t[k..] == rest[k - 1..];
    }
  }

  lemma SwapStep<T>(pre: seq<T>, t: seq<T>, x: T, k: nat)
    requires k < |t|
    ensures (pre + t[..k] + [x] + t[k..])[|pre| + k := t[k]][|pre| + k + 1 := x]
            == pre + t[..k + 1] + [x] + t[k + 1..]
  {
    var lhs := (pre + t[..k] + [x] + t[k..])[|pre| + k := t[k]][|pre| + k + 1 := x];
    var rhs := pre + t[..k + 1] + [x] + t[k + 1..];
    assert |lhs| == |rhs|;
    forall m | 0 <= m < |lhs| ensures lhs[m] == rhs[m] {
      if m < |pre| {
      } else if m < |pre| + k {
      } else if m == |pre| + k {
      } else if m == |pre| + k + 1 {
      } else {
        assert lhs[m] == t[m - |pre| - 1];
      }
    }
  }
}

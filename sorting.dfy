/** Python's built-in `sorted(..., key=...)`: a stable sort, modelled as an
    insertion sort parameterised by a key function and a strict total order
    on the keys. */
module Sorting {

  ghost predicate StrictTotalOrder<K(!new)>(lt: (K, K) -> bool) {
    && (forall a :: !lt(a, a))
    && (forall a, b, c :: lt(a, b) && lt(b, c) ==> lt(a, c))
    && (forall a, b :: a != b ==> lt(a, b) || lt(b, a))
  }

  /** No element is strictly smaller than an element before it. */
  ghost predicate SortedBy<T, K(!new)>(s: seq<T>, key: T -> K, lt: (K, K) -> bool) {
    forall i, j | 0 <= i < j < |s| :: !lt(key(s[j]), key(s[i]))
  }

  /** The elements of `s` whose key is `k`, in their order in `s`. */
  ghost function WithKey<T, K(!new)>(s: seq<T>, key: T -> K, k: K): seq<T> {
    if s == [] then [] else (if key(s[0]) == k then [s[0]] else []) + WithKey(s[1..], key, k)
  }

  /** Places `x` after every element whose key is not larger than its own. */
  function Insert<T, K(!new)>(x: T, s: seq<T>, key: T -> K, lt: (K, K) -> bool): (r: seq<T>)
    ensures |r| == |s| + 1 && multiset(r) == multiset(s) + multiset{x}
  {
    if s == [] then [x]
    else if lt(key(x), key(s[0])) then [x] + s
    else
      assert s == [s[0]] + s[1..];
      [s[0]] + Insert(x, s[1..], key, lt)
  }

  /** `sorted(s, key=key)`: elements are inserted in input order, so that
      equal keys keep their relative order. */
  function SortBy<T, K(!new)>(s: seq<T>, key: T -> K, lt: (K, K) -> bool): (r: seq<T>)
    ensures |r| == |s| && multiset(r) == multiset(s)
  {
    if s == [] then []
    else
      assert s == s[..|s| - 1] + [s[|s| - 1]];
      Insert(s[|s| - 1], SortBy(s[..|s| - 1], key, lt), key, lt)
  }

  /** A single element is already sorted. */
  lemma SortBySingle<T, K(!new)>(x: T, key: T -> K, lt: (K, K) -> bool)
    ensures SortBy([x], key, lt) == [x]
  {
    assert [x][..0] == [];
  }

  lemma {:induction false} InsertSorted<T, K(!new)>(x: T, s: seq<T>, key: T -> K, lt: (K, K) -> bool)
    requires StrictTotalOrder(lt) && SortedBy(s, key, lt)
    ensures SortedBy(Insert(x, s, key, lt), key, lt)
  {
    if s != [] && !lt(key(x), key(s[0])) {
      InsertSorted(x, s[1..], key, lt);
      var r := Insert(x, s, key, lt);
      assert r == [s[0]] + Insert(x, s[1..], key, lt);
      forall j | 0 < j < |r| ensures !lt(key(r[j]), key(s[0])) {
        assert r[j] in multiset(Insert(x, s[1..], key, lt));
        assert r[j] == x || r[j] in multiset(s[1..]);
        if r[j] != x {
          var m :| 0 <= m < |s[1..]| && s[1..][m] == r[j];
          assert s[m + 1] == r[j];
        }
      }
    }
  }

  lemma {:induction false} SortBySorted<T, K(!new)>(s: seq<T>, key: T -> K, lt: (K, K) -> bool)
    requires StrictTotalOrder(lt)
    ensures SortedBy(SortBy(s, key, lt), key, lt)
  {
    if s != [] {
      SortBySorted(s[..|s| - 1], key, lt);
      InsertSorted(s[|s| - 1], SortBy(s[..|s| - 1], key, lt), key, lt);
    }
  }

  lemma {:induction false} WithKeyAppend<T, K(!new)>(a: seq<T>, b: seq<T>, key: T -> K, k: K)
    ensures WithKey(a + b, key, k) == WithKey(a, key, k) + WithKey(b, key, k)
  {
    if a != [] {
      assert (a + b)[1..] == a[1..] + b;
      WithKeyAppend(a[1..], b, key, k);
    } else {
      assert a + b == b;
    }
  }

  lemma {:induction false} WithKeyNone<T, K(!new)>(s: seq<T>, key: T -> K, k: K)
    requires forall i | 0 <= i < |s| :: key(s[i]) != k
    ensures WithKey(s, key, k) == []
  {
    if s != [] { WithKeyNone(s[1..], key, k); }
  }

  /** A key below the first of a sorted sequence is below all of them. */
  lemma BelowSorted<T, K(!new)>(s: seq<T>, key: T -> K, lt: (K, K) -> bool, k: K)
    requires StrictTotalOrder(lt) && SortedBy(s, key, lt) && s != [] && lt(k, key(s[0]))
    ensures forall i | 0 <= i < |s| :: key(s[i]) != k
  {
    forall i | 0 < i < |s| ensures key(s[i]) != k {
      assert !lt(key(s[i]), key(s[0]));
    }
  }

  lemma SortedTail<T, K(!new)>(s: seq<T>, key: T -> K, lt: (K, K) -> bool)
    requires SortedBy(s, key, lt) && s != []
    ensures SortedBy(s[1..], key, lt)
  {
    var t := s[1..];
    forall i, j | 0 <= i < j < |t| ensures !lt(key(t[j]), key(t[i])) {
      assert t[i] == s[i + 1] && t[j] == s[j + 1];
    }
  }

  /** Inserting in front of a sorted sequence whose keys are all larger. */
  lemma InsertFrontStable<T, K(!new)>(x: T, s: seq<T>, key: T -> K, lt: (K, K) -> bool, k: K)
    requires StrictTotalOrder(lt) && SortedBy(s, key, lt) && s != [] && lt(key(x), key(s[0]))
    ensures WithKey([x] + s, key, k) == WithKey(s, key, k) + (if key(x) == k then [x] else [])
  {
    assert ([x] + s)[1..] == s;
    if key(x) == k {
      BelowSorted(s, key, lt, k);
      WithKeyNone(s, key, k);
    }
  }

  lemma {:induction false} InsertStable<T, K(!new)>(x: T, s: seq<T>, key: T -> K, lt: (K, K) -> bool, k: K)
    requires StrictTotalOrder(lt) && SortedBy(s, key, lt)
    ensures WithKey(Insert(x, s, key, lt), key, k)
         == WithKey(s, key, k) + (if key(x) == k then [x] else [])
  {
    if s == [] {
    } else if lt(key(x), key(s[0])) {
      assert Insert(x, s, key, lt) == [x] + s;
      InsertFrontStable(x, s, key, lt, k);
    } else {
      SortedTail(s, key, lt);
      InsertStable(x, s[1..], key, lt, k);
      assert Insert(x, s, key, lt) == [s[0]] + Insert(x, s[1..], key, lt);
      ConsStable(s[0], s[1..], Insert(x, s[1..], key, lt), if key(x) == k then [x] else [], key, k);
      assert [s[0]] + s[1..] == s;
    }
  }

  /** Putting the same element in front of two sequences keeps how their
      elements with key `k` relate. */
  lemma ConsStable<T, K(!new)>(y: T, t: seq<T>, r: seq<T>, extra: seq<T>, key: T -> K, k: K)
    requires WithKey(r, key, k) == WithKey(t, key, k) + extra
    ensures WithKey([y] + r, key, k) == WithKey([y] + t, key, k) + extra
  {
    var head := if key(y) == k then [y] else [];
    calc {
      WithKey([y] + r, key, k);
      { WithKeyCons(y, r, key, k); }
      head + WithKey(r, key, k);
      head + (WithKey(t, key, k) + extra);
      { AppendAssoc(head, WithKey(t, key, k), extra); }
      (head + WithKey(t, key, k)) + extra;
      { WithKeyCons(y, t, key, k); }
      WithKey([y] + t, key, k) + extra;
    }
  }

  lemma AppendAssoc<T>(a: seq<T>, b: seq<T>, c: seq<T>)
    ensures a + (b + c) == (a + b) + c
  {
  }

  lemma WithKeyCons<T, K(!new)>(y: T, t: seq<T>, key: T -> K, k: K)
    ensures WithKey([y] + t, key, k) == (if key(y) == k then [y] else []) + WithKey(t, key, k)
  {
    assert ([y] + t)[1..] == t;
  }

  lemma WithKeySnoc<T, K(!new)>(s: seq<T>, key: T -> K, k: K)
    requires s != []
    ensures WithKey(s, key, k)
         == WithKey(s[..|s| - 1], key, k) + (if key(s[|s| - 1]) == k then [s[|s| - 1]] else [])
  {
    var init, last := s[..|s| - 1], s[|s| - 1];
    assert s == init + [last];
    WithKeyAppend(init, [last], key, k);
    assert [last][1..] == [];
  }

  /** Sorting keeps, for every key, the relative order of the elements with that key. */
  lemma {:induction false} SortByStable<T, K(!new)>(s: seq<T>, key: T -> K, lt: (K, K) -> bool, k: K)
    requires StrictTotalOrder(lt)
    ensures WithKey(SortBy(s, key, lt), key, k) == WithKey(s, key, k)
  {
    if s != [] {
      var init, last := s[..|s| - 1], s[|s| - 1];
      var sorted := SortBy(init, key, lt);
      assert SortBy(s, key, lt) == Insert(last, sorted, key, lt);
      SortByStable(init, key, lt, k);
      SortBySorted(init, key, lt);
      InsertStable(last, sorted, key, lt, k);
      WithKeySnoc(s, key, k);
    }
  }

  /** Distinct keys make every element occur at most once. */
  lemma {:induction false} DistinctKeysOnce<T, K>(a: seq<T>, key: T -> K)
    requires forall i, j | 0 <= i < j < |a| :: key(a[i]) != key(a[j])
    ensures forall x :: multiset(a)[x] <= 1
  {
    if a != [] {
      var rest := a[1..];
      DistinctKeysOnce(rest, key);
      assert a == [a[0]] + rest;
      forall x ensures multiset(a)[x] <= 1 {
        if a[0] == x {
          forall k | 0 <= k < |rest| ensures rest[k] != x {
            assert key(a[0]) != key(a[k + 1]);
          }
        }
      }
    }
  }

  lemma RepeatCounted<T>(b: seq<T>, i: nat, j: nat)
    requires i < j < |b|
    ensures b[i] == b[j] ==> multiset(b)[b[i]] >= 2
  {
    assert b == b[..j] + b[j..];
    assert b[i] in multiset(b[..j]) && b[j] in multiset(b[j..]);
  }

  /** Rearranging a sequence keeps its keys distinct. */
  lemma DistinctKeysPermutation<T, K>(a: seq<T>, b: seq<T>, key: T -> K)
    requires multiset(a) == multiset(b)
    requires forall i, j | 0 <= i < j < |a| :: key(a[i]) != key(a[j])
    ensures forall i, j | 0 <= i < j < |b| :: key(b[i]) != key(b[j])
  {
    DistinctKeysOnce(a, key);
    forall i, j | 0 <= i < j < |b| ensures key(b[i]) != key(b[j]) {
      RepeatCounted(b, i, j);
      assert b[i] in multiset(a) && b[j] in multiset(a);
      var p :| 0 <= p < |a| && a[p] == b[i];
      var q :| 0 <= q < |a| && a[q] == b[j];
      assert p != q;
    }
  }
}

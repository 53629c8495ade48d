/**
 * The two sorts the core relies on, both stable like CPython's `sorted`:
 * by a numeric key, highest first (`sorted(xs, key=k, reverse=True)`, and
 * `numpy.argsort` by negating the key), and by a three-way comparator,
 * highest first (`sorted(xs, key=cmp_to_key(cmp), reverse=True)`).
 */
module Sorting {

  // ---------------------------------------------------------------- by key

  /** `x` goes in front of the first element whose key does not exceed its own. */
  function InsertByKey<T>(x: T, t: seq<T>, key: T -> real): (r: seq<T>)
    ensures |r| == |t| + 1
  {
    if t == [] || key(x) >= key(t[0]) then [x] + t else [t[0]] + InsertByKey(x, t[1..], key)
  }

  /** Stable sort by `key`, highest first: of two equal keys the earlier element stays first. */
  function SortByKeyDesc<T>(xs: seq<T>, key: T -> real): (r: seq<T>)
    ensures |r| == |xs|
  {
    if xs == [] then [] else InsertByKey(xs[0], SortByKeyDesc(xs[1..], key), key)
  }

  ghost predicate SortedDesc<T>(s: seq<T>, key: T -> real) {
    forall i, j :: 0 <= i < j < |s| ==> key(s[i]) >= key(s[j])
  }

  /** How many leading elements of `t` have a key strictly above that of `x`. */
  function Above<T>(x: T, t: seq<T>, key: T -> real): (p: nat)
    ensures p <= |t|
  {
    if t == [] || key(x) >= key(t[0]) then 0 else 1 + Above(x, t[1..], key)
  }

  /** Insertion splits `t` after exactly the leading elements that outrank `x`. */
  lemma {:induction false} InsertByKeySplit<T>(x: T, t: seq<T>, key: T -> real)
    ensures InsertByKey(x, t, key) == t[..Above(x, t, key)] + [x] + t[Above(x, t, key)..]
    ensures forall i :: 0 <= i < Above(x, t, key) ==> key(t[i]) > key(x)
    ensures Above(x, t, key) < |t| ==> key(t[Above(x, t, key)]) <= key(x)
  {
    if t != [] && key(x) < key(t[0]) {
      InsertByKeySplit(x, t[1..], key);
      var p := Above(x, t[1..], key);
      assert t[..p + 1] == [t[0]] + t[1..][..p];
      assert t[p + 1..] == t[1..][p..];
    }
  }

  lemma {:induction false} InsertByKeyPerm<T>(x: T, t: seq<T>, key: T -> real)
    ensures multiset(InsertByKey(x, t, key)) == multiset(t) + multiset{x}
  {
    InsertByKeySplit(x, t, key);
    var p := Above(x, t, key);
    assert t == t[..p] + t[p..];
    MultisetInsertAt(t[..p], x, t[p..]);
  }

  lemma MultisetInsertAt<T>(a: seq<T>, x: T, b: seq<T>)
    ensures multiset(a + [x] + b) == multiset(a + b) + multiset{x}
  {
  }

  /** The sorted sequence is a permutation of the input. */
  lemma {:induction false} SortByKeyPerm<T>(xs: seq<T>, key: T -> real)
    ensures multiset(SortByKeyDesc(xs, key)) == multiset(xs)
  {
    if xs != [] {
      SortByKeyPerm(xs[1..], key);
      InsertByKeyPerm(xs[0], SortByKeyDesc(xs[1..], key), key);
      assert xs == [xs[0]] + xs[1..];
    }
  }

  lemma {:induction false} InsertByKeySorted<T>(x: T, t: seq<T>, key: T -> real)
    requires SortedDesc(t, key)
    ensures SortedDesc(InsertByKey(x, t, key), key)
  {
    InsertByKeySplit(x, t, key);
    var p := Above(x, t, key);
    var r := InsertByKey(x, t, key);
    forall i, j | 0 <= i < j < |r| ensures key(r[i]) >= key(r[j]) {
      var ti := if i < p then t[i] else if i == p then x else t[i - 1];
      var tj := if j < p then t[j] else if j == p then x else t[j - 1];
      assert r[i] == ti && r[j] == tj;
      if i > p {
        assert key(t[i - 1]) >= key(t[j - 1]);
      } else if i == p && j > p {
        assert key(t[p]) >= key(t[j - 1]);
      }
    }
  }

  /** In a sorted sequence everything from the insertion point on ranks no higher than `x`. */
  lemma {:induction false} BelowInsertPoint<T>(x: T, t: seq<T>, key: T -> real)
    requires SortedDesc(t, key)
    ensures forall j :: Above(x, t, key) <= j < |t| ==> key(t[j]) <= key(x)
  {
    InsertByKeySplit(x, t, key);
    var p := Above(x, t, key);
    forall j | p <= j < |t| ensures key(t[j]) <= key(x) {
      assert key(t[p]) >= key(t[j]);
    }
  }

  /** The sorted sequence is ordered by key, highest first. */
  lemma {:induction false} SortByKeySorted<T>(xs: seq<T>, key: T -> real)
    ensures SortedDesc(SortByKeyDesc(xs, key), key)
  {
    if xs != [] {
      SortByKeySorted(xs[1..], key);
      InsertByKeySorted(xs[0], SortByKeyDesc(xs[1..], key), key);
    }
  }

  // --------------------------------------------------------- by comparator

  /** `x` goes in front of the first element it ranks at least as high as. */
  function InsertByCmp<T>(x: T, t: seq<T>, cmp: (T, T) -> real): (r: seq<T>)
    ensures |r| == |t| + 1
    ensures r[0] == x || (t != [] && r[0] == t[0])
  {
    if t == [] || cmp(x, t[0]) >= 0.0 then [x] + t else [t[0]] + InsertByCmp(x, t[1..], cmp)
  }

  /** Stable sort by a three-way comparator (positive: first ranks higher), highest first. */
  function SortByCmpDesc<T>(xs: seq<T>, cmp: (T, T) -> real): (r: seq<T>)
    ensures |r| == |xs|
  {
    if xs == [] then [] else InsertByCmp(xs[0], SortByCmpDesc(xs[1..], cmp), cmp)
  }

  ghost predicate Antisymmetric<T(!new)>(cmp: (T, T) -> real) {
    forall a, b :: cmp(a, b) == -cmp(b, a)
  }

  /** Each element ranks at least as high as its successor. */
  ghost predicate AdjacentDesc<T>(s: seq<T>, cmp: (T, T) -> real) {
    forall i :: 0 <= i < |s| - 1 ==> cmp(s[i], s[i + 1]) >= 0.0
  }

  lemma {:induction false} InsertByCmpPerm<T>(x: T, t: seq<T>, cmp: (T, T) -> real)
    ensures multiset(InsertByCmp(x, t, cmp)) == multiset(t) + multiset{x}
  {
    if t != [] && cmp(x, t[0]) < 0.0 {
      InsertByCmpPerm(x, t[1..], cmp);
      assert t == [t[0]] + t[1..];
    }
  }

  lemma {:induction false} SortByCmpPerm<T>(xs: seq<T>, cmp: (T, T) -> real)
    ensures multiset(SortByCmpDesc(xs, cmp)) == multiset(xs)
  {
    if xs != [] {
      SortByCmpPerm(xs[1..], cmp);
      InsertByCmpPerm(xs[0], SortByCmpDesc(xs[1..], cmp), cmp);
      assert xs == [xs[0]] + xs[1..];
    }
  }

  lemma {:induction false} InsertByCmpAdjacent<T(!new)>(x: T, t: seq<T>, cmp: (T, T) -> real)
    requires Antisymmetric(cmp) && AdjacentDesc(t, cmp)
    ensures AdjacentDesc(InsertByCmp(x, t, cmp), cmp)
  {
    if t != [] && cmp(x, t[0]) < 0.0 {
      var rest := InsertByCmp(x, t[1..], cmp);
      InsertByCmpAdjacent(x, t[1..], cmp);
      assert cmp(t[0], x) > 0.0;
      assert |t| > 1 ==> cmp(t[0], t[1]) >= 0.0;
      var r := [t[0]] + rest;
      forall i | 0 <= i < |r| - 1 ensures cmp(r[i], r[i + 1]) >= 0.0 {
        if i > 0 {
          assert r[i] == rest[i - 1] && r[i + 1] == rest[i];
        }
      }
    }
  }

  /**
   * Even when the comparator is not transitive, every element of the result
   * ranks at least as high as the one after it, provided the comparator is
   * antisymmetric.
   */
  lemma {:induction false} SortByCmpAdjacent<T(!new)>(xs: seq<T>, cmp: (T, T) -> real)
    requires Antisymmetric(cmp)
    ensures AdjacentDesc(SortByCmpDesc(xs, cmp), cmp)
  {
    if xs != [] {
      SortByCmpAdjacent(xs[1..], cmp);
      InsertByCmpAdjacent(xs[0], SortByCmpDesc(xs[1..], cmp), cmp);
    }
  }

  // ---------------------------------------------------------------- argsort

  function Range(n: nat): (r: seq<nat>)
    ensures |r| == n && forall i :: 0 <= i < n ==> r[i] == i
  {
    if n == 0 then [] else Range(n - 1) + [n - 1]
  }

  /** No number occurs twice in `Range(n)`, and none from `n` on occurs at all. */
  lemma {:induction false} RangeCount(n: nat, x: nat)
    ensures multiset(Range(n))[x] <= 1
    ensures x >= n ==> multiset(Range(n))[x] == 0
  {
    if n > 0 {
      var front := Range(n - 1);
      RangeCount(n - 1, x);
      var m := multiset(front)[x];
      assert Range(n) == front + [n - 1];
      assert multiset(Range(n))[x] == m + multiset([n - 1])[x];
      if x == n - 1 {
        assert m == 0;
      } else {
        assert multiset([n - 1])[x] == 0;
      }
    }
  }

  /** A value at two positions of a sequence occurs at least twice in its multiset. */
  lemma RepeatCount<T>(s: seq<T>, i: nat, j: nat)
    requires i < j < |s| && s[i] == s[j]
    ensures multiset(s)[s[i]] >= 2
  {
    assert s == s[..j] + [s[j]] + s[j + 1..];
    assert s[..j][i] == s[i];
    assert s[i] in multiset(s[..j]);
  }

  /** A permutation of `Range(n)` holds no index twice. */
  lemma PermutationDistinct(order: seq<nat>, n: nat)
    requires multiset(order) == multiset(Range(n))
    ensures forall i, j :: 0 <= i < j < |order| ==> order[i] != order[j]
  {
    forall i, j | 0 <= i < j < |order| ensures order[i] != order[j] {
      if order[i] == order[j] {
        RepeatCount(order, i, j);
        RangeCount(n, order[i]);
      }
    }
  }

  function ValueAt(v: seq<real>, i: nat): real {
    if i < |v| then v[i] else 0.0
  }

  /** `numpy.argsort(v)`: the indices of `v`, ordered by ascending value (ties in index order). */
  function ArgSort(v: seq<real>): (r: seq<nat>)
    ensures |r| == |v|
  {
    SortByKeyDesc(Range(|v|), i => -ValueAt(v, i))
  }

  /** ArgSort is a permutation of the indices, ordered by ascending value. */
  lemma {:induction false} ArgSortSpec(v: seq<real>)
    ensures multiset(ArgSort(v)) == multiset(Range(|v|))
    ensures forall i :: 0 <= i < |v| ==> ArgSort(v)[i] < |v|
    ensures forall i, j :: 0 <= i < j < |v| ==> v[ArgSort(v)[i]] <= v[ArgSort(v)[j]]
  {
    var key := (i: nat) => -ValueAt(v, i);
    var r := ArgSort(v);
    SortByKeyPerm(Range(|v|), key);
    SortByKeySorted(Range(|v|), key);
    forall i | 0 <= i < |v| ensures r[i] < |v| {
      assert r[i] in multiset(Range(|v|));
    }
    forall i, j | 0 <= i < j < |v| ensures v[r[i]] <= v[r[j]] {
      assert r[i] in multiset(Range(|v|)) && r[j] in multiset(Range(|v|));
      assert key(r[i]) >= key(r[j]);
    }
  }
}

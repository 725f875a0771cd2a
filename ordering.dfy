/**
 * Strict total orders and sorting a finite set by one. Python's `sorted()`
 * over a collection of distinct keys yields the unique strictly increasing
 * enumeration of that collection; `SortSet` is that enumeration.
 */
module Ordering {

  ghost predicate StrictTotalOrder<T(!new)>(lt: (T, T) -> bool) {
    && (forall a :: !lt(a, a))
    && (forall a, b, c :: lt(a, b) && lt(b, c) ==> lt(a, c))
    && (forall a, b :: a != b ==> lt(a, b) || lt(b, a))
  }

  predicate IsLeast<T(==)>(m: T, s: set<T>, lt: (T, T) -> bool) {
    m in s && forall x :: x in s && x != m ==> lt(m, x)
  }

  predicate StrictlySorted<T>(r: seq<T>, lt: (T, T) -> bool) {
    forall i, j :: 0 <= i < j < |r| ==> lt(r[i], r[j])
  }

  lemma StrictlySortedDistinct<T(!new)>(r: seq<T>, lt: (T, T) -> bool)
    requires StrictTotalOrder(lt) && StrictlySorted(r, lt)
    ensures forall i, j :: 0 <= i < j < |r| ==> r[i] != r[j]
  {
    forall i, j | 0 <= i < j < |r| ensures r[i] != r[j] {
      assert lt(r[i], r[j]);
    }
  }

  lemma SortedTail<T>(s: seq<T>, lt: (T, T) -> bool)
    requires |s| > 0 && StrictlySorted(s, lt)
    ensures StrictlySorted(s[1..], lt)
  {
    forall i, j | 0 <= i < j < |s| - 1 ensures lt(s[1..][i], s[1..][j]) {
      assert s[1..][i] == s[i + 1] && s[1..][j] == s[j + 1];
    }
  }

  /** A sorted sequence stays sorted when an element below all of it is put in front. */
  lemma SortedCons<T>(x: T, s: seq<T>, lt: (T, T) -> bool)
    requires StrictlySorted(s, lt)
    requires forall k :: 0 <= k < |s| ==> lt(x, s[k])
    ensures StrictlySorted([x] + s, lt)
  {
    var t := [x] + s;
    forall i, j | 0 <= i < j < |t| ensures lt(t[i], t[j]) {
      assert t[j] == s[j - 1];
      if i > 0 {
        assert t[i] == s[i - 1];
      }
    }
  }

  lemma {:induction false} LeastExists<T(!new)>(s: set<T>, lt: (T, T) -> bool)
    requires s != {}
    requires StrictTotalOrder(lt)
    ensures exists m :: IsLeast(m, s, lt)
    decreases |s|
  {
    var y :| y in s;
    if s == {y} {
      assert IsLeast(y, s, lt);
    } else {
      LeastExists(s - {y}, lt);
      var m :| IsLeast(m, s - {y}, lt);
      if lt(y, m) {
        forall x | x in s && x != y ensures lt(y, x) {
          if x != m {
            assert x in s - {y};
          }
        }
        assert IsLeast(y, s, lt);
      } else {
        forall x | x in s && x != m ensures lt(m, x) {
          if x != y {
            assert x in s - {y};
          }
        }
        assert IsLeast(m, s, lt);
      }
    }
  }

  /** The smallest element of a non-empty finite set. */
  function Least<T(!new)>(s: set<T>, lt: (T, T) -> bool): (m: T)
    requires s != {}
    requires StrictTotalOrder(lt)
    ensures IsLeast(m, s, lt)
  {
    LeastExists(s, lt);
    var m :| IsLeast(m, s, lt);
    m
  }

  /** Removing an element other than the least one leaves the least one in place. */
  lemma LeastOfSmaller<T(!new)>(s: set<T>, x: T, lt: (T, T) -> bool)
    requires StrictTotalOrder(lt)
    requires x in s && s != {} && x != Least(s, lt)
    ensures s - {x} != {} && Least(s - {x}, lt) == Least(s, lt)
  {
    var m := Least(s, lt);
    assert m in s - {x};
    var m' := Least(s - {x}, lt);
    assert m != m' ==> lt(m, m') && lt(m', m);
    assert m != m' ==> lt(m, m);
  }

  /** The elements of `s` in strictly increasing order. */
  function SortSet<T(!new)>(s: set<T>, lt: (T, T) -> bool): (r: seq<T>)
    requires StrictTotalOrder(lt)
    ensures |r| == |s|
    ensures forall x :: x in r <==> x in s
    ensures StrictlySorted(r, lt)
    decreases |s|
  {
    if s == {} then []
    else
      var m := Least(s, lt);
      [m] + SortSet(s - {m}, lt)
  }

  /** Strictly sorted enumerations of one set are equal: `sorted()` is determined by the set. */
  lemma {:induction false} SortedUnique<T(!new)>(r1: seq<T>, r2: seq<T>, lt: (T, T) -> bool)
    requires StrictTotalOrder(lt)
    requires StrictlySorted(r1, lt) && StrictlySorted(r2, lt)
    requires forall x :: x in r1 <==> x in r2
    ensures r1 == r2
    decreases |r1|
  {
    if r1 != [] {
      assert r1[0] in r2;
    }
    if r2 != [] {
      assert r2[0] in r1;
    }
    if r1 != [] && r2 != [] {
      assert r1[0] in r2 && r2[0] in r1;
      var i :| 0 <= i < |r2| && r2[i] == r1[0];
      var j :| 0 <= j < |r1| && r1[j] == r2[0];
      var a, b := r1[0], r2[0];
      assert a == b || lt(b, a);
      assert a == b || lt(a, b);
      assert a == b;
      forall x ensures x in r1[1..] <==> x in r2[1..] {
        if x in r1[1..] {
          var k :| 0 <= k < |r1| - 1 && r1[1..][k] == x;
          assert lt(r1[0], r1[k + 1]);
          assert x in r1;
          var k2 :| 0 <= k2 < |r2| && r2[k2] == x;
          assert k2 != 0;
          assert r2[1..][k2 - 1] == x;
        }
        if x in r2[1..] {
          var k :| 0 <= k < |r2| - 1 && r2[1..][k] == x;
          assert lt(r2[0], r2[k + 1]);
          assert x in r2;
          var k1 :| 0 <= k1 < |r1| && r1[k1] == x;
          assert k1 != 0;
          assert r1[1..][k1 - 1] == x;
        }
      }
      SortedUnique(r1[1..], r2[1..], lt);
      assert r1 == [r1[0]] + r1[1..];
      assert r2 == [r2[0]] + r2[1..];
    }
  }

  /** The sum of the values of a finite map, taken in increasing key order. */
  function MapSum<K(!new)>(m: map<K, nat>, lt: (K, K) -> bool): nat
    requires StrictTotalOrder(lt)
    decreases |m.Keys|
  {
    if m.Keys == {} then 0
    else
      var k := Least(m.Keys, lt);
      assert m.Keys - {k} < m.Keys;
      m[k] + MapSum(m - {k}, lt)
  }

  /** Any key can be taken out of the sum first: the order does not matter. */
  lemma {:induction false} MapSumRemove<K(!new)>(m: map<K, nat>, key: K, lt: (K, K) -> bool)
    requires StrictTotalOrder(lt)
    requires key in m
    ensures MapSum(m, lt) == m[key] + MapSum(m - {key}, lt)
    decreases |m.Keys|
  {
    var k := Least(m.Keys, lt);
    if k != key {
      var m1 := m - {k};
      assert key in m1 && m1.Keys < m.Keys;
      MapSumRemove(m1, key, lt);
      var m2 := m - {key};
      assert m2.Keys == m.Keys - {key};
      LeastOfSmaller(m.Keys, key, lt);
      assert m2 - {k} == m1 - {key};
    }
  }
}

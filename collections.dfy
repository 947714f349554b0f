/**
 * Sequence helpers shared by the store and the sweep: filtering (LINQ's
 * `Where`) and key uniqueness (a unique index).
 */
module Collections {

  /** The elements of `s` that satisfy `p`, in order. */
  function Filter<T(==)>(s: seq<T>, p: T -> bool): (r: seq<T>)
    ensures |r| <= |s|
    ensures forall i :: 0 <= i < |r| ==> r[i] in s && p(r[i])
    ensures forall i :: 0 <= i < |s| && p(s[i]) ==> s[i] in r
  {
    if s == [] then [] else (if p(s[0]) then [s[0]] else []) + Filter(s[1..], p)
  }

  lemma {:induction false} FilterAppend<T>(a: seq<T>, b: seq<T>, p: T -> bool)
    ensures Filter(a + b, p) == Filter(a, p) + Filter(b, p)
  {
    if a == [] {
      assert a + b == b;
    } else {
      assert (a + b)[1..] == a[1..] + b;
      FilterAppend(a[1..], b, p);
    }
  }

  /** Filtering with a predicate every element satisfies changes nothing. */
  lemma {:induction false} FilterAll<T>(s: seq<T>, p: T -> bool)
    requires forall i :: 0 <= i < |s| ==> p(s[i])
    ensures Filter(s, p) == s
  {
    if s != [] {
      FilterAll(s[1..], p);
    }
  }

  /** No two positions of `s` share a key. */
  predicate Injective<T, K(==)>(s: seq<T>, key: T -> K) {
    forall i, j :: 0 <= i < j < |s| ==> key(s[i]) != key(s[j])
  }

  lemma ConsInjective<T, K>(x: T, s: seq<T>, key: T -> K)
    requires Injective(s, key)
    requires forall i :: 0 <= i < |s| ==> key(s[i]) != key(x)
    ensures Injective([x] + s, key)
  {
    var t := [x] + s;
    forall i, j | 0 <= i < j < |t| ensures key(t[i]) != key(t[j]) {
      assert t[j] == s[j - 1];
      if i > 0 { assert t[i] == s[i - 1]; }
    }
  }

  lemma {:induction false} FilterInjective<T, K>(s: seq<T>, p: T -> bool, key: T -> K)
    requires Injective(s, key)
    ensures Injective(Filter(s, p), key)
  {
    if s != [] {
      var tail := s[1..];
      assert Injective(tail, key) by {
        forall i, j | 0 <= i < j < |tail| ensures key(tail[i]) != key(tail[j]) {
          assert tail[i] == s[i + 1] && tail[j] == s[j + 1];
        }
      }
      FilterInjective(tail, p, key);
      var r := Filter(tail, p);
      if p(s[0]) {
        forall i | 0 <= i < |r| ensures key(r[i]) != key(s[0]) {
          var j :| 0 <= j < |tail| && tail[j] == r[i];
          assert tail[j] == s[j + 1];
        }
        ConsInjective(s[0], r, key);
      } else {
        assert Filter(s, p) == r;
      }
    }
  }

  /** Under a unique key, an element is determined by its key. */
  lemma InjectiveKeyDetermines<T, K>(s: seq<T>, key: T -> K, x: T, y: T)
    requires Injective(s, key)
    requires x in s && y in s && key(x) == key(y)
    ensures x == y
  {
    var i :| 0 <= i < |s| && s[i] == x;
    var j :| 0 <= j < |s| && s[j] == y;
    assert i == j;
  }
}

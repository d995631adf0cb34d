/**
 Generic sequence facts the ledger is built on: order-preserving filtering
 (JavaScript's `Array.prototype.filter`), element-wise mapping, duplicate
 freedom, and building a map from key/value pairs where a later pair
 overwrites an earlier one (repeated assignment to an object property).
 */
module Sequences {

  /** `a` can be obtained from `b` by deleting some of its elements. */
  ghost predicate Subsequence<T>(a: seq<T>, b: seq<T>)
    decreases |b|
  {
    if a == [] then true
    else if b == [] then false
    else (a[0] == b[0] && Subsequence(a[1..], b[1..])) || Subsequence(a, b[1..])
  }

  /** Keeps, in their original order, exactly the elements of `s` that satisfy `p`. */
  function Filter<T(!new)>(s: seq<T>, p: T -> bool): (r: seq<T>)
    ensures Subsequence(r, s)
    ensures forall x :: multiset(r)[x] == if p(x) then multiset(s)[x] else 0
    ensures forall x :: x in r <==> x in s && p(x)
  {
    if s == [] then []
    else
      var rest := Filter(s[1..], p);
      assert s == [s[0]] + s[1..];
      if p(s[0]) then
        assert ([s[0]] + rest)[1..] == rest;
        [s[0]] + rest
      else
        rest
  }

  /** Filtering a sequence with a given first element. */
  lemma FilterCons<T(!new)>(x: T, s: seq<T>, p: T -> bool)
    ensures Filter([x] + s, p) == (if p(x) then [x] else []) + Filter(s, p)
  {
    assert ([x] + s)[1..] == s;
  }

  /** Applies `f` to every element, keeping the order. */
  function Map<T, U>(s: seq<T>, f: T -> U): (r: seq<U>)
    ensures |r| == |s|
    ensures forall i :: 0 <= i < |s| ==> r[i] == f(s[i])
  {
    seq(|s|, i requires 0 <= i < |s| => f(s[i]))
  }

  /** No value occurs twice. */
  ghost predicate Distinct<T>(s: seq<T>) {
    forall i, j :: 0 <= i < j < |s| ==> s[i] != s[j]
  }

  /** Filtering keeps a key that was unique unique: the survivors are a sub-collection of the original. */
  lemma {:induction false} FilterKeepsDistinct<T(!new), K>(s: seq<T>, p: T -> bool, key: T -> K)
    requires Distinct(Map(s, key))
    ensures Distinct(Map(Filter(s, p), key))
    decreases |s|
  {
    if s != [] {
      var rest := Filter(s[1..], p);
      assert Map(s[1..], key) == Map(s, key)[1..];
      FilterKeepsDistinct(s[1..], p, key);
      if p(s[0]) {
        var r := [s[0]] + rest;
        assert Filter(s, p) == r;
        forall i, j | 0 <= i < j < |r|
          ensures Map(r, key)[i] != Map(r, key)[j]
        {
          if i == 0 {
            assert r[j] in s[1..];
            var k :| 0 <= k < |s[1..]| && s[1..][k] == r[j];
            assert Map(s, key)[0] != Map(s, key)[k + 1];
          } else {
            assert r[i] == rest[i - 1] && r[j] == rest[j - 1];
            assert Map(rest, key)[i - 1] != Map(rest, key)[j - 1];
          }
        }
      }
    }
  }

  /** Index `i` holds the last pair of `s` whose key is `s[i].0`. */
  ghost predicate LastOf<K, V>(s: seq<(K, V)>, i: int)
    requires 0 <= i < |s|
  {
    forall j :: i < j < |s| ==> s[j].0 != s[i].0
  }

  /** The keys of a sequence of pairs. */
  function KeysOf<K(!new), V>(s: seq<(K, V)>): (r: set<K>)
    ensures forall k :: k in r <==> exists i :: 0 <= i < |s| && s[i].0 == k
  {
    set i | 0 <= i < |s| :: s[i].0
  }

  /**
   Assigns the pairs of `s` in order into an empty map, so the last pair for
   a key decides its value.
   */
  function ToMap<K(==,!new), V>(s: seq<(K, V)>): (r: map<K, V>)
    ensures r.Keys == KeysOf(s)
    decreases |s|
  {
    if s == [] then map[]
    else
      var init := s[..|s| - 1];
      var prefix := ToMap(init);
      assert KeysOf(s) == KeysOf(init) + {s[|s| - 1].0} by {
        assert forall i :: 0 <= i < |init| ==> init[i] == s[i];
      }
      prefix[s[|s| - 1].0 := s[|s| - 1].1]
  }

  /** The value a key ends with is the one of its last pair. */
  lemma {:induction false} ToMapLast<K(!new), V>(s: seq<(K, V)>, i: int)
    requires 0 <= i < |s| && LastOf(s, i)
    ensures s[i].0 in ToMap(s) && ToMap(s)[s[i].0] == s[i].1
    decreases |s|
  {
    if i < |s| - 1 {
      var init := s[..|s| - 1];
      assert init[i] == s[i];
      assert LastOf(init, i) by {
        forall j | i < j < |init|
          ensures init[j].0 != init[i].0
        {
          assert init[j] == s[j];
        }
      }
      ToMapLast(init, i);
    }
  }

  /** The keys of a sequence of pairs, in order. */
  function KeySeq<K, V>(s: seq<(K, V)>): (r: seq<K>)
    ensures |r| == |s|
    ensures forall i :: 0 <= i < |s| ==> r[i] == s[i].0
  {
    Map(s, (p: (K, V)) => p.0)
  }

  /** With duplicate-free keys every pair is the last of its key. */
  lemma DistinctKeysAreLast<K, V>(s: seq<(K, V)>, i: int)
    requires Distinct(KeySeq(s))
    requires 0 <= i < |s|
    ensures LastOf(s, i)
  {
    forall j | i < j < |s|
      ensures s[j].0 != s[i].0
    {
      assert KeySeq(s)[i] != KeySeq(s)[j];
    }
  }

  /** Every last pair of a key gives that key its value. */
  lemma ToMapValues<K(!new), V>(s: seq<(K, V)>)
    ensures forall i :: 0 <= i < |s| && LastOf(s, i) ==> s[i].0 in ToMap(s) && ToMap(s)[s[i].0] == s[i].1
  {
    forall i | 0 <= i < |s| && LastOf(s, i)
      ensures s[i].0 in ToMap(s) && ToMap(s)[s[i].0] == s[i].1
    {
      ToMapLast(s, i);
    }
  }
}

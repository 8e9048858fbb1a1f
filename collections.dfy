// Generic collection vocabulary shared by every page of the tracker:
// an Option type, the two Array.prototype operations the pages rely on
// (filter and find), and the insertion-ordered dictionary that a
// JavaScript object literal or a JavaScript Map behaves as.

module Wrappers {

  /** A value that may be missing (`undefined` in the pages). */
  datatype Option<+T> = None | Some(value: T) {

    /** The value, or `default` when it is missing (the pages' `x || default`
        for values that are never falsy otherwise). */
    function GetOr(default: T): T {
      match this
      case Some(v) => v
      case None => default
    }
  }

  /** The result of a validated write: it went through, or it was rejected
      (the page shows an error toast and leaves the collection alone). */
  datatype Outcome<+E> = Pass | Fail(error: E)
}

module Seqs {
  import opened Wrappers

  /** `r` is `s` with some elements dropped and the others kept in their order. */
  ghost predicate IsSubsequence<T>(r: seq<T>, s: seq<T>)
    decreases |s|
  {
    if |r| == 0 then true
    else if |s| == 0 then false
    else (r[0] == s[0] && IsSubsequence(r[1..], s[1..])) || IsSubsequence(r, s[1..])
  }

  /** `Array.prototype.filter`: the elements of `s` that satisfy `keep`, in order.
      With `FilterCounts` the postconditions determine the result completely: it
      is a subsequence of `s` that holds every kept element as often as `s` does
      and nothing else. */
  function Filter<T(!new)>(s: seq<T>, keep: T -> bool): (r: seq<T>)
    ensures IsSubsequence(r, s)
    ensures forall x :: x in r <==> x in s && keep(x)
    ensures |r| <= |s|
    decreases |s|
  {
    if |s| == 0 then []
    else
      assert s == [s[0]] + s[1..];
      var rest := Filter(s[1..], keep);
      if keep(s[0]) then
        assert ([s[0]] + rest)[1..] == rest;
        [s[0]] + rest
      else
        rest
  }

  /** Filtering keeps each kept element as many times as `s` holds it and drops
      every other element entirely. */
  lemma {:induction false} FilterCounts<T(!new)>(s: seq<T>, keep: T -> bool)
    ensures forall x :: multiset(Filter(s, keep))[x] == if keep(x) then multiset(s)[x] else 0
    decreases |s|
  {
    if |s| > 0 {
      FilterCounts(s[1..], keep);
      assert s == [s[0]] + s[1..];
    }
  }

  /** Filtering a sequence in which every element is kept changes nothing. */
  lemma {:induction false} FilterKeepsAll<T(!new)>(s: seq<T>, keep: T -> bool)
    requires forall i :: 0 <= i < |s| ==> keep(s[i])
    ensures Filter(s, keep) == s
    decreases |s|
  {
    if |s| > 0 {
      FilterKeepsAll(s[1..], keep);
    }
  }

  /** No two elements of `s` share a key. */
  ghost predicate DistinctBy<T, K>(s: seq<T>, key: T -> K) {
    forall i, j :: 0 <= i < j < |s| ==> key(s[i]) != key(s[j])
  }

  /** Filtering never makes two elements share a key. */
  lemma {:induction false} FilterKeepsDistinct<T(!new), K>(s: seq<T>, keep: T -> bool, key: T -> K)
    requires DistinctBy(s, key)
    ensures DistinctBy(Filter(s, keep), key)
    decreases |s|
  {
    if |s| > 0 {
      FilterKeepsDistinct(s[1..], keep, key);
      var tail := Filter(s[1..], keep);
      if keep(s[0]) {
        var r := [s[0]] + tail;
        assert Filter(s, keep) == r;
        forall i, j | 0 <= i < j < |r| ensures key(r[i]) != key(r[j]) {
          if i == 0 {
            assert r[j] in s[1..];
            var k :| 0 <= k < |s[1..]| && s[1..][k] == r[j];
            assert s[k + 1] == r[j];
          } else {
            assert r[i] == tail[i - 1] && r[j] == tail[j - 1];
          }
        }
      }
    }
  }

  /** `Array.prototype.find`: the first element of `s` that satisfies `p`. */
  function Find<T>(s: seq<T>, p: T -> bool): (r: Option<T>)
    ensures r.None? <==> forall x :: x in s ==> !p(x)
    ensures r.Some? ==> r.value in s && p(r.value)
    ensures r.Some? ==> exists i :: 0 <= i < |s| && s[i] == r.value && forall j :: 0 <= j < i ==> !p(s[j])
    decreases |s|
  {
    if |s| == 0 then None
    else if p(s[0]) then Some(s[0])
    else
      assert s == [s[0]] + s[1..];
      var r := Find(s[1..], p);
      assert r.Some? ==> exists i :: 0 <= i < |s| && s[i] == r.value && forall j :: 0 <= j < i ==> !p(s[j]) by {
        if r.Some? {
          var i :| 0 <= i < |s[1..]| && s[1..][i] == r.value && forall j :: 0 <= j < i ==> !p(s[1..][j]);
          assert s[i + 1] == r.value;
          assert forall j :: 0 <= j < i + 1 ==> !p(s[j]) by {
            forall j | 0 <= j < i + 1 ensures !p(s[j]) {
              if j > 0 { assert s[j] == s[1..][j - 1]; }
            }
          }
        }
      }
      r
  }
}

module OrderedMaps {
  import opened Wrappers

  /** One key/value pair of an insertion-ordered dictionary. */
  datatype Entry<K, V> = Entry(key: K, value: V)

  /** A JavaScript object with string keys, or a JavaScript `Map`: its entries in
      insertion order. `Object.values` and `Map.prototype.values` list the values
      in that order. */
  type OrderedMap<K, V> = seq<Entry<K, V>>

  ghost predicate KeysDistinct<K, V>(m: OrderedMap<K, V>) {
    forall i, j :: 0 <= i < j < |m| ==> m[i].key != m[j].key
  }

  function Keys<K, V>(m: OrderedMap<K, V>): (ks: seq<K>)
    ensures |ks| == |m| && forall i :: 0 <= i < |m| ==> ks[i] == m[i].key
  {
    seq(|m|, i requires 0 <= i < |m| => m[i].key)
  }

  /** `Object.values(m)`. */
  function Values<K, V>(m: OrderedMap<K, V>): (vs: seq<V>)
    ensures |vs| == |m| && forall i :: 0 <= i < |m| ==> vs[i] == m[i].value
  {
    seq(|m|, i requires 0 <= i < |m| => m[i].value)
  }

  /** `m[k]`: the value stored under `k`, or `None` for `undefined`. */
  function Get<K(==), V>(m: OrderedMap<K, V>, k: K): (r: Option<V>)
    ensures r.None? <==> forall i :: 0 <= i < |m| ==> m[i].key != k
    ensures r.Some? ==> exists i :: 0 <= i < |m| && m[i] == Entry(k, r.value)
    decreases |m|
  {
    if |m| == 0 then None
    else if m[0].key == k then Some(m[0].value)
    else
      var r := Get(m[1..], k);
      assert r.Some? ==> exists i :: 0 <= i < |m| && m[i] == Entry(k, r.value) by {
        if r.Some? {
          var i :| 0 <= i < |m[1..]| && m[1..][i] == Entry(k, r.value);
          assert m[i + 1] == Entry(k, r.value);
        }
      }
      r
  }

  /** With distinct keys, looking up the key of an entry yields that entry's value. */
  lemma {:induction false} GetEntry<K, V>(m: OrderedMap<K, V>, i: int)
    requires KeysDistinct(m) && 0 <= i < |m|
    ensures Get(m, m[i].key) == Some(m[i].value)
    decreases |m|
  {
    if i > 0 {
      assert m[0].key != m[i].key;
      GetEntry(m[1..], i - 1);
    }
  }

  /** `{...m, [k]: v}` (or `m.set(k, v)` on a `Map`): an existing key keeps its
      position and gets the new value; a new key is appended at the end. */
  function Put<K(==,!new), V>(m: OrderedMap<K, V>, k: K, v: V): (r: OrderedMap<K, V>)
    ensures Get(r, k) == Some(v)
    ensures forall k' :: k' != k ==> Get(r, k') == Get(m, k')
    ensures Get(m, k).None? ==> r == m + [Entry(k, v)]
    ensures Get(m, k).Some? ==> |r| == |m| && forall i :: 0 <= i < |m| ==> r[i].key == m[i].key
    decreases |m|
  {
    if |m| == 0 then [Entry(k, v)]
    else if m[0].key == k then
      var r := [Entry(k, v)] + m[1..];
      assert r[1..] == m[1..];
      r
    else
      var rest := Put(m[1..], k, v);
      var r := [m[0]] + rest;
      assert r[1..] == rest;
      assert m == [m[0]] + m[1..];
      r
  }

  /** Putting a key never duplicates a key: a JavaScript object stays an object. */
  lemma {:induction false} PutKeysDistinct<K(!new), V>(m: OrderedMap<K, V>, k: K, v: V)
    requires KeysDistinct(m)
    ensures KeysDistinct(Put(m, k, v))
  {
    var r := Put(m, k, v);
    if Get(m, k).None? {
      forall i, j | 0 <= i < j < |r| ensures r[i].key != r[j].key {
        if j == |m| {
          assert r[i] == m[i];
        }
      }
    }
  }
}

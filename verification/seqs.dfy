/**
 * Sequence utilities the job store needs: distinctness, a stable sort by an
 * integer key (Python's `sorted`/`list.sort` are stable), filtering, and
 * Python's slice semantics including negative bounds.
 */
module Seqs {

  predicate Distinct<T(==)>(xs: seq<T>) {
    forall i, j :: 0 <= i < j < |xs| ==> xs[i] != xs[j]
  }

  function Elems<T>(xs: seq<T>): set<T> {
    set x | x in xs
  }

  lemma {:induction false} DistinctCard<T>(xs: seq<T>)
    requires Distinct(xs)
    ensures |Elems(xs)| == |xs|
  {
    if xs != [] {
      var t := xs[1..];
      assert Distinct(t);
      DistinctCard(t);
      assert Elems(xs) == Elems(t) + {xs[0]};
      HeadNotInTail(xs);
    }
  }

  lemma HeadNotInTail<T>(xs: seq<T>)
    requires Distinct(xs) && xs != []
    ensures xs[0] !in xs[1..] && xs[0] !in Elems(xs[1..])
  {
    forall j | 1 <= j < |xs| ensures xs[j] != xs[0] {
    }
  }

  predicate SortedBy<T>(xs: seq<T>, key: T -> int) {
    forall i, j :: 0 <= i < j < |xs| ==> key(xs[i]) <= key(xs[j])
  }

  /** Places `x` in front of the first element whose key is not smaller, so
      that among equal keys `x` stays first (the stable choice when `x` came
      first in the input). */
  function InsertBy<T>(x: T, ys: seq<T>, key: T -> int): (r: seq<T>)
    requires SortedBy(ys, key)
    ensures SortedBy(r, key)
    ensures multiset(r) == multiset(ys) + multiset{x}
    ensures |r| == |ys| + 1
  {
    if ys == [] || key(x) <= key(ys[0]) then
      [x] + ys
    else
      var rest := InsertBy(x, ys[1..], key);
      assert ys == [ys[0]] + ys[1..];
      InsertHeadKeepsOrder(ys[0], rest, ys[1..], x, key);
      [ys[0]] + rest
  }

  lemma InsertHeadKeepsOrder<T>(h: T, rest: seq<T>, tail: seq<T>, x: T, key: T -> int)
    requires SortedBy(rest, key)
    requires multiset(rest) == multiset(tail) + multiset{x}
    requires forall i :: 0 <= i < |tail| ==> key(h) <= key(tail[i])
    requires key(h) <= key(x)
    ensures SortedBy([h] + rest, key)
  {
    forall i | 0 <= i < |rest| ensures key(h) <= key(rest[i]) {
      assert rest[i] in multiset(rest);
      if rest[i] != x {
        assert rest[i] in multiset(tail);
        var k :| 0 <= k < |tail| && tail[k] == rest[i];
      }
    }
  }

  /** Stable insertion sort by ascending key. */
  function SortBy<T>(xs: seq<T>, key: T -> int): (r: seq<T>)
    ensures SortedBy(r, key)
    ensures multiset(r) == multiset(xs)
    ensures |r| == |xs|
  {
    if xs == [] then []
    else
      var rest := SortBy(xs[1..], key);
      assert xs == [xs[0]] + xs[1..];
      InsertBy(xs[0], rest, key)
  }

  /** In a sorted sequence, what lies before position `k` has no larger key
      than anything from `k` on. */
  lemma SortedPrefixBelow<T>(xs: seq<T>, key: T -> int, k: nat, x: T, y: T)
    requires SortedBy(xs, key) && k <= |xs|
    requires x in xs[..k] && y in xs && y !in xs[..k]
    ensures key(x) <= key(y)
  {
    var i :| 0 <= i < k && xs[..k][i] == x;
    var j :| 0 <= j < |xs| && xs[j] == y;
    assert j >= k by {
      assert forall m :: 0 <= m < k ==> xs[..k][m] == xs[m];
    }
  }

  /** The elements of `xs` whose key is `k`, in their order in `xs`. */
  function WithKey<T>(xs: seq<T>, key: T -> int, k: int): seq<T> {
    if xs == [] then []
    else (if key(xs[0]) == k then [xs[0]] else []) + WithKey(xs[1..], key, k)
  }

  lemma {:induction false} InsertByStable<T>(x: T, ys: seq<T>, key: T -> int, k: int)
    requires SortedBy(ys, key)
    ensures WithKey(InsertBy(x, ys, key), key, k) == (if key(x) == k then [x] else []) + WithKey(ys, key, k)
  {
    if ys == [] || key(x) <= key(ys[0]) {
      assert ([x] + ys)[1..] == ys;
    } else {
      var rest := InsertBy(x, ys[1..], key);
      InsertByStable(x, ys[1..], key, k);
      assert ([ys[0]] + rest)[1..] == rest;
      var h := if key(ys[0]) == k then [ys[0]] else [];
      assert WithKey(ys, key, k) == h + WithKey(ys[1..], key, k);
      assert WithKey([ys[0]] + rest, key, k) == h + WithKey(rest, key, k);
    }
  }

  /** Stability: among elements with equal keys, the sort keeps the input
      order. */
  lemma {:induction false} SortByStable<T>(xs: seq<T>, key: T -> int, k: int)
    ensures WithKey(SortBy(xs, key), key, k) == WithKey(xs, key, k)
  {
    if xs != [] {
      SortByStable(xs[1..], key, k);
      InsertByStable(xs[0], SortBy(xs[1..], key), key, k);
    }
  }

  lemma PermutationKeepsDistinct<T>(xs: seq<T>, ys: seq<T>)
    requires Distinct(xs) && multiset(xs) == multiset(ys)
    ensures Distinct(ys)
  {
    forall i, j | 0 <= i < j < |ys| ensures ys[i] != ys[j] {
      if ys[i] == ys[j] {
        var m := multiset(ys);
        assert ys == ys[..i] + [ys[i]] + ys[i + 1..j] + [ys[j]] + ys[j + 1..];
        assert m[ys[i]] >= 2;
        DistinctMultiplicity(xs, ys[i]);
      }
    }
  }

  lemma {:induction false} DistinctMultiplicity<T>(xs: seq<T>, x: T)
    requires Distinct(xs)
    ensures multiset(xs)[x] <= 1
  {
    if xs != [] {
      assert Distinct(xs[1..]);
      DistinctMultiplicity(xs[1..], x);
      assert xs == [xs[0]] + xs[1..];
      HeadNotInTail(xs);
    }
  }

  lemma PermutationSameElems<T>(xs: seq<T>, ys: seq<T>)
    requires multiset(xs) == multiset(ys)
    ensures Elems(xs) == Elems(ys)
  {
    forall x ensures x in xs <==> x in ys {
      assert x in xs <==> x in multiset(xs);
      assert x in ys <==> x in multiset(ys);
    }
  }

  /** The elements of `xs` not in `drop`, in their original order. */
  function Without<T>(xs: seq<T>, drop: set<T>): (r: seq<T>)
    ensures Elems(r) == Elems(xs) - drop
    ensures |r| <= |xs|
    ensures Distinct(xs) ==> Distinct(r)
  {
    if xs == [] then []
    else
      var rest := Without(xs[1..], drop);
      assert Elems(xs) == {xs[0]} + Elems(xs[1..]);
      if xs[0] in drop then rest
      else
        assert Distinct(xs) ==> xs[0] !in Elems(rest) by {
          if Distinct(xs) {
            HeadNotInTail(xs);
          }
        }
        assert Elems([xs[0]] + rest) == {xs[0]} + Elems(rest);
        [xs[0]] + rest
  }

  /** Python's normalisation of one slice bound against a length `n`. */
  function SliceBound(i: int, n: nat): (r: nat)
    ensures r <= n
    ensures 0 <= i <= n ==> r == i
  {
    if i < 0 then (if n + i < 0 then 0 else n + i) else if i > n then n else i
  }

  /** Python `xs[a:b]` with step 1. */
  function PySlice<T>(xs: seq<T>, a: int, b: int): (r: seq<T>)
    ensures 0 <= a && 0 <= b ==>
      r == (if a < |xs| && a < b then xs[a..(if b < |xs| then b else |xs|)] else [])
  {
    var lo := SliceBound(a, |xs|);
    var hi := SliceBound(b, |xs|);
    if lo < hi then xs[lo..hi] else []
  }
}

/**
 * JSON-shaped values, as produced by `json.load`/`yaml.safe_load` and as
 * carried in the API's response dictionaries.
 */
module Json {
  import opened Opt

  /** A decoded JSON value; an object keeps its items in insertion order,
      as a Python dict does. */
  datatype Value =
    | JNull
    | JBool(b: bool)
    | JInt(i: int)
    | JStr(s: string)
    | JList(items: seq<Value>)
    | JObj(fields: seq<(string, Value)>)

  /** Python truthiness of a decoded value. */
  predicate Truthy(v: Value) {
    match v
    case JNull => false
    case JBool(b) => b
    case JInt(i) => i != 0
    case JStr(s) => s != ""
    case JList(items) => items != []
    case JObj(fields) => fields != []
  }

  predicate HasKey(d: seq<(string, Value)>, key: string) {
    exists i :: 0 <= i < |d| && d[i].0 == key
  }

  /** Where `key` first occurs among the items. */
  function FindKey(d: seq<(string, Value)>, key: string): (r: Option<nat>)
    ensures r.None? <==> !HasKey(d, key)
    ensures r.Some? ==> r.value < |d| && d[r.value].0 == key
    ensures r.Some? ==> forall j :: 0 <= j < r.value ==> d[j].0 != key
  {
    if d == [] then None
    else if d[0].0 == key then Some(0)
    else
      match FindKey(d[1..], key)
      case None => None
      case Some(i) =>
        assert d[i + 1] == d[1..][i];
        Some(i + 1)
  }

  /** A key that occurs once reads back its value. */
  lemma GetUnique(d: seq<(string, Value)>, i: nat, default: Value)
    requires i < |d| && forall j :: 0 <= j < |d| && j != i ==> d[j].0 != d[i].0
    ensures Get(d, d[i].0, default) == d[i].1
  {
  }

  /** Python `d.get(key, default)` on a dict given by its items. */
  function Get(d: seq<(string, Value)>, key: string, default: Value): (r: Value)
    ensures !HasKey(d, key) ==> r == default
    ensures HasKey(d, key) ==> exists i :: 0 <= i < |d| && d[i].0 == key && r == d[i].1
  {
    match FindKey(d, key)
    case None => default
    case Some(i) => d[i].1
  }
}

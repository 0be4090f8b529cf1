/** Sequence combinators standing for the LINQ operators the source uses
    (`Where`, `Select`, `Distinct`), defined once and specified here. */
module Seqs {

  /** `Where`: the elements of `s` that satisfy `p`, in their original order. */
  function Filter<T(==,!new)>(s: seq<T>, p: T -> bool): (r: seq<T>)
    ensures |r| <= |s|
    ensures forall x :: x in r <==> x in s && p(x)
  {
    if s == [] then []
    else Filter(s[..|s| - 1], p) + (if p(s[|s| - 1]) then [s[|s| - 1]] else [])
  }

  /** `Select`: `f` applied to every element, positions kept. */
  function Map<T, U>(s: seq<T>, f: T -> U): (r: seq<U>)
    ensures |r| == |s|
    ensures forall k :: 0 <= k < |s| ==> r[k] == f(s[k])
  {
    if s == [] then [] else Map(s[..|s| - 1], f) + [f(s[|s| - 1])]
  }

  /** Filtering distributes over concatenation. */
  lemma {:induction false} FilterAppend<T(!new)>(a: seq<T>, b: seq<T>, p: T -> bool)
    ensures Filter(a + b, p) == Filter(a, p) + Filter(b, p)
    decreases |b|
  {
    if b == [] {
      assert a + b == a;
    } else {
      var b' := b[..|b| - 1];
      assert (a + b)[..|a + b| - 1] == a + b';
      FilterAppend(a, b', p);
    }
  }

  /** Filtering with a stronger predicate is filtering the weaker result further:
      the result is an order-preserving sub-list of the weaker one. */
  lemma {:induction false} FilterNarrows<T(!new)>(s: seq<T>, p: T -> bool, q: T -> bool)
    requires forall k :: 0 <= k < |s| && p(s[k]) ==> q(s[k])
    ensures Filter(s, p) == Filter(Filter(s, q), p)
  {
    if s != [] {
      var s' := s[..|s| - 1];
      var x := s[|s| - 1];
      FilterNarrows(s', p, q);
      FilterAppend(Filter(s', q), if q(x) then [x] else [], p);
      assert Filter([x], p) == Filter([], p) + (if p(x) then [x] else []) by {
        assert [x][..0] == [];
      }
    }
  }

  /** Two predicates that agree on every element select the same sub-list. */
  lemma {:induction false} FilterCongruent<T(!new)>(s: seq<T>, p: T -> bool, q: T -> bool)
    requires forall k :: 0 <= k < |s| ==> p(s[k]) == q(s[k])
    ensures Filter(s, p) == Filter(s, q)
  {
    if s != [] {
      FilterCongruent(s[..|s| - 1], p, q);
    }
  }

  /** A predicate every element satisfies keeps the whole sequence. */
  lemma {:induction false} FilterAll<T(!new)>(s: seq<T>, p: T -> bool)
    requires forall k :: 0 <= k < |s| ==> p(s[k])
    ensures Filter(s, p) == s
  {
    if s != [] {
      FilterAll(s[..|s| - 1], p);
    }
  }

  /** A predicate no element satisfies keeps nothing. */
  lemma {:induction false} FilterNone<T(!new)>(s: seq<T>, p: T -> bool)
    requires forall k :: 0 <= k < |s| ==> !p(s[k])
    ensures Filter(s, p) == []
  {
    if s != [] {
      FilterNone(s[..|s| - 1], p);
    }
  }

  /** Concatenation is associative. */
  lemma AppendAssoc<T>(a: seq<T>, b: seq<T>, c: seq<T>)
    ensures (a + b) + c == a + (b + c)
  {
  }

  /** Mapping distributes over concatenation. */
  lemma MapAppend<T, U>(a: seq<T>, b: seq<T>, f: T -> U)
    ensures Map(a + b, f) == Map(a, f) + Map(b, f)
  {
  }

  /** One more element of the input adds at most one mapped element at the end:
      the step a loop that filters and maps element by element takes. */
  lemma FilterMapSnoc<T(!new), U>(s: seq<T>, i: int, p: T -> bool, g: T -> U)
    requires 0 <= i < |s|
    ensures Map(Filter(s[..i + 1], p), g) == Map(Filter(s[..i], p), g) + (if p(s[i]) then [g(s[i])] else [])
  {
    assert s[..i + 1][..i] == s[..i];
    var f := Filter(s[..i], p);
    if p(s[i]) {
      assert (f + [s[i]])[..|f|] == f;
    } else {
      assert f + [] == f;
    }
  }

  /** The keys of the elements of `s`. */
  function KeysOf<T, K>(s: seq<T>, key: T -> K): set<K> {
    set k | 0 <= k < |s| :: key(s[k])
  }

  lemma KeysOfSnoc<T, K>(s: seq<T>, x: T, key: T -> K)
    ensures KeysOf(s + [x], key) == KeysOf(s, key) + {key(x)}
  {
    var l := KeysOf(s + [x], key);
    var r := KeysOf(s, key) + {key(x)};
    forall k | k in l ensures k in r {
      var i :| 0 <= i < |s + [x]| && key((s + [x])[i]) == k;
      if i < |s| { assert key(s[i]) == k; }
    }
    forall k | k in r ensures k in l {
      if k == key(x) {
        assert key((s + [x])[|s|]) == k;
      } else {
        var i :| 0 <= i < |s| && key(s[i]) == k;
        assert key((s + [x])[i]) == k;
      }
    }
  }

  /** No two elements of `s` share a key. */
  predicate KeysUnique<T, K(==)>(s: seq<T>, key: T -> K) {
    forall i, j :: 0 <= i < j < |s| ==> key(s[i]) != key(s[j])
  }

  /** `s[i]` is the first element of `s` with its key. */
  predicate FirstWithItsKey<T, K(==)>(s: seq<T>, key: T -> K, i: int)
    requires 0 <= i < |s|
  {
    forall j :: 0 <= j < i ==> key(s[j]) != key(s[i])
  }

  /** `Distinct` generalised to a key, as a dictionary that keeps the first value
      stored under each key and is enumerated in insertion order. */
  function DistinctBy<T(==), K(==)>(s: seq<T>, key: T -> K): (r: seq<T>)
    ensures KeysUnique(r, key)
    ensures KeysOf(r, key) == KeysOf(s, key)
    ensures forall k :: 0 <= k < |r| ==> r[k] in s
    ensures |r| <= |s|
  {
    if s == [] then []
    else
      var r' := DistinctBy(s[..|s| - 1], key);
      var x := s[|s| - 1];
      KeysOfSnoc(s[..|s| - 1], x, key);
      KeysOfSnoc(r', x, key);
      assert s[..|s| - 1] + [x] == s;
      if key(x) in KeysOf(r', key) then r' else r' + [x]
  }

  /** Every element `DistinctBy` keeps is the first element of the input with its key. */
  lemma {:induction false} DistinctByKeepsFirst<T, K>(s: seq<T>, key: T -> K, x: T)
    requires x in DistinctBy(s, key)
    ensures exists i :: 0 <= i < |s| && s[i] == x && FirstWithItsKey(s, key, i)
  {
    var s' := s[..|s| - 1];
    var r' := DistinctBy(s', key);
    var last := s[|s| - 1];
    if x in r' {
      DistinctByKeepsFirst(s', key, x);
      var i :| 0 <= i < |s'| && s'[i] == x && FirstWithItsKey(s', key, i);
      assert s[i] == x && FirstWithItsKey(s, key, i);
    } else {
      assert x == last && key(last) !in KeysOf(s', key);
      forall j | 0 <= j < |s| - 1 ensures key(s[j]) != key(last) {
        assert s[j] in s';
      }
      assert FirstWithItsKey(s, key, |s| - 1);
    }
  }
}

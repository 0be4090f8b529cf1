/** Ordinal string order and the stable sort that stands for LINQ's `OrderBy`
    on a string key. */
module Ordering {
  import opened Seqs

  /** `string.CompareOrdinal(a, b) < 0`: the first differing character decides,
      and a proper prefix comes first. */
  predicate Less(a: string, b: string) {
    if a == [] then b != []
    else if b == [] then false
    else if a[0] != b[0] then a[0] < b[0]
    else Less(a[1..], b[1..])
  }

  lemma {:induction false} LessIrreflexive(a: string)
    ensures !Less(a, a)
  {
    if a != [] {
      LessIrreflexive(a[1..]);
    }
  }

  lemma {:induction false} LessTransitive(a: string, b: string, c: string)
    requires Less(a, b) && Less(b, c)
    ensures Less(a, c)
  {
    if a != [] && b != [] && c != [] && a[0] == b[0] && b[0] == c[0] {
      LessTransitive(a[1..], b[1..], c[1..]);
    }
  }

  /** Two different strings are always ordered one way or the other. */
  lemma {:induction false} LessTotal(a: string, b: string)
    ensures a == b || Less(a, b) || Less(b, a)
  {
    if a != [] && b != [] && a[0] == b[0] {
      LessTotal(a[1..], b[1..]);
      if a[1..] == b[1..] {
        assert a == [a[0]] + a[1..] && b == [b[0]] + b[1..];
      }
    }
  }

  lemma {:induction false} LessAsymmetric(a: string, b: string)
    requires Less(a, b)
    ensures !Less(b, a)
  {
    if a != [] && b != [] && a[0] == b[0] {
      LessAsymmetric(a[1..], b[1..]);
    }
  }

  /** Keys never decrease from left to right. */
  predicate SortedBy<T>(s: seq<T>, key: T -> string) {
    forall i, j :: 0 <= i < j < |s| ==> !Less(key(s[j]), key(s[i]))
  }

  /** Keys strictly increase from left to right. */
  predicate StrictlySortedBy<T>(s: seq<T>, key: T -> string) {
    forall i, j :: 0 <= i < j < |s| ==> Less(key(s[i]), key(s[j]))
  }

  /** Every key in `s` is at least `b`. */
  predicate AllAtLeast<T>(s: seq<T>, key: T -> string, b: string) {
    forall k :: 0 <= k < |s| ==> !Less(key(s[k]), b)
  }

  /** Inserts `x` into a sorted sequence after every element whose key is not
      greater than its own, which keeps the sort stable. */
  function InsertBy<T>(x: T, s: seq<T>, key: T -> string): (r: seq<T>)
    ensures multiset(r) == multiset(s) + multiset{x}
  {
    if s == [] then [x]
    else if Less(key(x), key(s[0])) then [x] + s
    else
      assert s == [s[0]] + s[1..];
      [s[0]] + InsertBy(x, s[1..], key)
  }

  lemma KeysOfCons<T>(x: T, s: seq<T>, key: T -> string)
    ensures KeysOf([x] + s, key) == {key(x)} + KeysOf(s, key)
  {
    var r := [x] + s;
    forall k | k in KeysOf(r, key) ensures k in {key(x)} + KeysOf(s, key) {
      var i :| 0 <= i < |r| && key(r[i]) == k;
      if i > 0 { assert key(s[i - 1]) == k; }
    }
    forall k | k in KeysOf(s, key) ensures k in KeysOf(r, key) {
      var i :| 0 <= i < |s| && key(s[i]) == k;
      assert key(r[i + 1]) == k;
    }
    assert key(r[0]) == key(x);
  }

  /** Inserting `x` keeps every lower bound that `x` also respects. */
  lemma {:induction false} InsertByBounded<T>(x: T, s: seq<T>, key: T -> string, b: string)
    requires AllAtLeast(s, key, b) && !Less(key(x), b)
    ensures AllAtLeast(InsertBy(x, s, key), key, b)
  {
    if s != [] && !Less(key(x), key(s[0])) {
      InsertByBounded(x, s[1..], key, b);
    }
  }

  /** Inserting into a sorted sequence keeps it sorted. */
  lemma {:induction false} InsertBySorted<T>(x: T, s: seq<T>, key: T -> string)
    requires SortedBy(s, key)
    ensures SortedBy(InsertBy(x, s, key), key)
  {
    var r := InsertBy(x, s, key);
    if s != [] && Less(key(x), key(s[0])) {
      forall j | 0 < j < |r| ensures !Less(key(r[j]), key(x)) {
        LessAsymmetric(key(x), key(s[0]));
        if j > 1 && Less(key(s[j - 1]), key(x)) {
          LessTransitive(key(s[j - 1]), key(x), key(s[0]));
        }
      }
    } else if s != [] {
      var rest := InsertBy(x, s[1..], key);
      InsertBySorted(x, s[1..], key);
      LessTotal(key(x), key(s[0]));
      if key(x) == key(s[0]) { LessIrreflexive(key(x)); }
      InsertByBounded(x, s[1..], key, key(s[0]));
      assert r == [s[0]] + rest;
    }
  }

  /** Inserting adds exactly the key of `x`. */
  lemma {:induction false} InsertByKeys<T>(x: T, s: seq<T>, key: T -> string)
    ensures KeysOf(InsertBy(x, s, key), key) == KeysOf(s, key) + {key(x)}
  {
    if s == [] {
      KeysOfCons(x, [], key);
    } else if Less(key(x), key(s[0])) {
      KeysOfCons(x, s, key);
    } else {
      var rest := InsertBy(x, s[1..], key);
      assert InsertBy(x, s, key) == [s[0]] + rest;
      assert s == [s[0]] + s[1..];
      InsertByKeys(x, s[1..], key);
      KeysOfCons(s[0], rest, key);
      KeysOfCons(s[0], s[1..], key);
    }
  }

  /** Inserting an element with a new key keeps keys distinct. */
  lemma {:induction false} InsertByKeepsKeysUnique<T>(x: T, s: seq<T>, key: T -> string)
    requires KeysUnique(s, key) && key(x) !in KeysOf(s, key)
    ensures KeysUnique(InsertBy(x, s, key), key)
  {
    var r := InsertBy(x, s, key);
    if s == [] {
    } else if Less(key(x), key(s[0])) {
      forall j | 0 < j < |r| ensures key(r[0]) != key(r[j]) {
        assert key(s[j - 1]) in KeysOf(s, key);
      }
    } else {
      var s0 := s[0];
      var rest := InsertBy(x, s[1..], key);
      assert r == [s0] + rest;
      forall i | 0 <= i < |s[1..]| ensures key(s[1..][i]) != key(s0) {
        assert s[1..][i] == s[i + 1];
      }
      forall i | 0 <= i < |s[1..]| ensures key(s[1..][i]) in KeysOf(s, key) {
        assert s[1..][i] == s[i + 1];
      }
      assert key(x) !in KeysOf(s[1..], key);
      InsertByKeepsKeysUnique(x, s[1..], key);
      InsertByKeys(x, s[1..], key);
      assert key(s0) !in KeysOf(s[1..], key);
      forall j | 0 < j < |r| ensures key(r[0]) != key(r[j]) {
        assert key(rest[j - 1]) in KeysOf(rest, key);
      }
    }
  }

  /** LINQ's `OrderBy(key)`: a stable sort of `s` by ordinal key order. */
  function SortBy<T>(s: seq<T>, key: T -> string): (r: seq<T>)
    ensures multiset(r) == multiset(s)
  {
    if s == [] then []
    else
      assert s[..|s| - 1] + [s[|s| - 1]] == s;
      InsertBy(s[|s| - 1], SortBy(s[..|s| - 1], key), key)
  }

  /** The sort's result is sorted. */
  lemma {:induction false} SortBySorted<T>(s: seq<T>, key: T -> string)
    ensures SortedBy(SortBy(s, key), key)
  {
    if s != [] {
      SortBySorted(s[..|s| - 1], key);
      InsertBySorted(s[|s| - 1], SortBy(s[..|s| - 1], key), key);
    }
  }

  /** The keys of a non-empty sequence are those of all but its last element
      and the last element's key. */
  lemma KeysOfLast<T>(s: seq<T>, key: T -> string)
    requires s != []
    ensures KeysOf(s, key) == KeysOf(s[..|s| - 1], key) + {key(s[|s| - 1])}
  {
    KeysOfSnoc(s[..|s| - 1], s[|s| - 1], key);
    assert s[..|s| - 1] + [s[|s| - 1]] == s;
  }

  /** The sort's result has the same keys as its input. */
  lemma {:induction false} SortByKeys<T>(s: seq<T>, key: T -> string)
    ensures KeysOf(SortBy(s, key), key) == KeysOf(s, key)
  {
    if s != [] {
      var s' := s[..|s| - 1];
      var x := s[|s| - 1];
      assert SortBy(s, key) == InsertBy(x, SortBy(s', key), key);
      SortByKeys(s', key);
      InsertByKeys(x, SortBy(s', key), key);
      KeysOfLast(s, key);
    }
  }

  /** Sorting keeps distinct keys distinct. */
  lemma {:induction false} SortByKeepsKeysUnique<T>(s: seq<T>, key: T -> string)
    requires KeysUnique(s, key)
    ensures KeysUnique(SortBy(s, key), key)
  {
    if s != [] {
      var s' := s[..|s| - 1];
      var x := s[|s| - 1];
      assert KeysUnique(s', key);
      SortByKeepsKeysUnique(s', key);
      SortByKeys(s', key);
      forall i | 0 <= i < |s'| ensures key(s'[i]) != key(x) {
        assert s'[i] == s[i];
      }
      assert key(x) !in KeysOf(s', key);
      InsertByKeepsKeysUnique(x, SortBy(s', key), key);
    }
  }

  /** The test "has key `k`". */
  function HasKey<T>(key: T -> string, k: string): T -> bool {
    y => key(y) == k
  }

  /** In a sorted sequence whose first key is above `k`, no key is `k`. */
  lemma KeysAboveFirst<T>(s: seq<T>, key: T -> string, k: string)
    requires SortedBy(s, key) && s != [] && Less(k, key(s[0]))
    ensures forall j :: 0 <= j < |s| ==> key(s[j]) != k
  {
    LessIrreflexive(k);
  }

  /** Putting `x` in front of elements none of which has key `k` when `x`
      has it, keeps the order of the key-`k` elements. */
  lemma FilterInFront<T(!new)>(x: T, s: seq<T>, key: T -> string, k: string)
    requires key(x) == k ==> forall j :: 0 <= j < |s| ==> key(s[j]) != k
    ensures Filter([x] + s, HasKey(key, k)) == Filter(s, HasKey(key, k)) + Filter([x], HasKey(key, k))
  {
    var p := HasKey(key, k);
    FilterAppend([x], s, p);
    if key(x) == k {
      FilterNone(s, p);
    } else {
      FilterNone([x], p);
    }
  }

  /** Putting `y` in front of both sides keeps the stability equation. */
  lemma FilterBehind<T(!new)>(y: T, rest: seq<T>, s: seq<T>, x: T, key: T -> string, k: string)
    requires Filter(rest, HasKey(key, k)) == Filter(s, HasKey(key, k)) + Filter([x], HasKey(key, k))
    ensures Filter([y] + rest, HasKey(key, k)) == Filter([y] + s, HasKey(key, k)) + Filter([x], HasKey(key, k))
  {
    var p := HasKey(key, k);
    FilterAppend([y], rest, p);
    FilterAppend([y], s, p);
    AppendAssoc(Filter([y], p), Filter(s, p), Filter([x], p));
  }

  /** Inserting `x` after every element whose key is not greater than its own
      puts it behind every element with the same key. */
  lemma {:induction false} InsertByStable<T(!new)>(x: T, s: seq<T>, key: T -> string, k: string)
    requires SortedBy(s, key)
    ensures Filter(InsertBy(x, s, key), HasKey(key, k)) == Filter(s, HasKey(key, k)) + Filter([x], HasKey(key, k))
  {
    if s == [] {
      FilterInFront(x, s, key, k);
      assert InsertBy(x, s, key) == [x] + s;
    } else if Less(key(x), key(s[0])) {
      if key(x) == k {
        KeysAboveFirst(s, key, k);
      }
      FilterInFront(x, s, key, k);
    } else {
      var rest := InsertBy(x, s[1..], key);
      assert InsertBy(x, s, key) == [s[0]] + rest;
      InsertByStable(x, s[1..], key, k);
      FilterBehind(s[0], rest, s[1..], x, key, k);
      assert [s[0]] + s[1..] == s;
    }
  }

  /** Inserting the last element of `s` into the sorted rest adds the same
      key-`k` element at the end as appending it to the rest does. */
  lemma StableStep<T(!new)>(s: seq<T>, sorted: seq<T>, inserted: seq<T>, key: T -> string, k: string)
    requires s != []
    requires Filter(sorted, HasKey(key, k)) == Filter(s[..|s| - 1], HasKey(key, k))
    requires Filter(inserted, HasKey(key, k)) == Filter(sorted, HasKey(key, k)) + Filter([s[|s| - 1]], HasKey(key, k))
    ensures Filter(inserted, HasKey(key, k)) == Filter(s, HasKey(key, k))
  {
    var x := s[|s| - 1];
    assert [x][..0] == [];
    assert Filter([x], HasKey(key, k)) == if key(x) == k then [x] else [];
  }

  /** `OrderBy` is stable: the elements that share any one key keep their
      relative order. */
  lemma {:induction false} SortByStable<T(!new)>(s: seq<T>, key: T -> string, k: string)
    ensures Filter(SortBy(s, key), HasKey(key, k)) == Filter(s, HasKey(key, k))
  {
    if s != [] {
      var sorted := SortBy(s[..|s| - 1], key);
      var inserted := InsertBy(s[|s| - 1], sorted, key);
      assert SortBy(s, key) == inserted;
      SortByStable(s[..|s| - 1], key, k);
      SortBySorted(s[..|s| - 1], key);
      InsertByStable(s[|s| - 1], sorted, key, k);
      StableStep(s, sorted, inserted, key, k);
    }
  }

  /** With distinct keys the sorted order is strict, so each key appears once
      and in ascending order. */
  lemma SortByDistinctIsStrict<T>(s: seq<T>, key: T -> string)
    requires KeysUnique(s, key)
    ensures StrictlySortedBy(SortBy(s, key), key)
  {
    var r := SortBy(s, key);
    SortBySorted(s, key);
    SortByKeepsKeysUnique(s, key);
    forall i, j | 0 <= i < j < |r| ensures Less(key(r[i]), key(r[j])) {
      LessTotal(key(r[i]), key(r[j]));
    }
  }
}

/** Strict total orders, and the fact every sorted view in this project leans on: a strictly sorted
    sequence is determined by its elements alone, so whatever order rows arrive in, the sorted view
    is the same. */
module Ordering {

  ghost predicate StrictTotalOrder<T(!new)>(less: (T, T) -> bool) {
    && (forall x :: !less(x, x))
    && (forall x, y, z :: less(x, y) && less(y, z) ==> less(x, z))
    && (forall x, y :: less(x, y) || x == y || less(y, x))
  }

  /** Code-point order on strings, which is how Python compares `str`. */
  predicate Less(a: string, b: string) {
    b != [] && (a == [] || a[0] < b[0] || (a[0] == b[0] && Less(a[1..], b[1..])))
  }

  lemma {:induction false} LessIrreflexive(a: string)
    ensures !Less(a, a)
  {
    if a != [] { LessIrreflexive(a[1..]); }
  }

  lemma {:induction false} LessTransitive(a: string, b: string, c: string)
    requires Less(a, b) && Less(b, c)
    ensures Less(a, c)
  {
    if a != [] && a[0] == b[0] == c[0] { LessTransitive(a[1..], b[1..], c[1..]); }
  }

  lemma {:induction false} LessTotal(a: string, b: string)
    ensures Less(a, b) || a == b || Less(b, a)
  {
    if a != [] && b != [] && a[0] == b[0] {
      LessTotal(a[1..], b[1..]);
      assert a == [a[0]] + a[1..] && b == [b[0]] + b[1..];
    }
  }

  lemma LessIsStrictTotalOrder()
    ensures StrictTotalOrder(Less)
  {
    forall a: string ensures !Less(a, a) { LessIrreflexive(a); }
    forall a, b, c | Less(a, b) && Less(b, c) ensures Less(a, c) { LessTransitive(a, b, c); }
    forall a, b ensures Less(a, b) || a == b || Less(b, a) { LessTotal(a, b); }
  }

  /** The strings agree up to `k`, where one ends or the two differ. */
  ghost predicate DecidesAt(a: string, b: string, k: nat) {
    k <= |a| && k < |b| && a[..k] == b[..k] && (k == |a| || a[k] < b[k])
  }

  /** One string is below another exactly when it is a proper beginning of it, or has the lower character where they
      first differ. */
  lemma {:induction false} LessIff(a: string, b: string)
    ensures Less(a, b) <==> exists k: nat :: DecidesAt(a, b, k)
  {
    if b == [] {
      assert forall k: nat :: !DecidesAt(a, b, k);
    } else if a == [] || a[0] < b[0] {
      assert DecidesAt(a, b, 0);
    } else if a[0] == b[0] {
      LessIff(a[1..], b[1..]);
      if k: nat :| DecidesAt(a[1..], b[1..], k) {
        DecidesLater(a, b, k);
      }
      if k: nat :| DecidesAt(a, b, k) {
        DecidesLater(a, b, if k == 0 then 0 else k - 1);
        assert DecidesAt(a[1..], b[1..], k - 1);
      }
    } else {
      forall k: nat ensures !DecidesAt(a, b, k) {
        if 0 < k <= |a| && k <= |b| { assert a[..k][0] == a[0] && b[..k][0] == b[0]; }
      }
    }
  }

  lemma DecidesLater(a: string, b: string, k: nat)
    requires a != [] && b != [] && a[0] == b[0]
    ensures DecidesAt(a, b, k + 1) <==> DecidesAt(a[1..], b[1..], k)
    ensures !DecidesAt(a, b, 0)
  {
    if k + 1 <= |a| && k + 1 < |b| {
      assert a[..k + 1] == [a[0]] + a[1..][..k] && b[..k + 1] == [b[0]] + b[1..][..k];
      if a[..k + 1] == b[..k + 1] { assert a[1..][..k] == a[..k + 1][1..] && b[1..][..k] == b[..k + 1][1..]; }
    }
  }

  // ---- Python's `sorted(items, key=...)` for distinct keys ----

  function InsertBy<T, K>(less: (K, K) -> bool, key: T -> K, sorted: seq<T>, x: T): seq<T> {
    if sorted == [] || less(key(x), key(sorted[0])) then [x] + sorted
    else [sorted[0]] + InsertBy(less, key, sorted[1..], x)
  }

  function SortBy<T, K>(less: (K, K) -> bool, key: T -> K, items: seq<T>): seq<T> {
    if items == [] then []
    else InsertBy(less, key, SortBy(less, key, items[..|items| - 1]), items[|items| - 1])
  }

  ghost predicate SortedBy<T, K>(less: (K, K) -> bool, key: T -> K, s: seq<T>) {
    forall i, j :: 0 <= i < j < |s| ==> less(key(s[i]), key(s[j]))
  }

  ghost predicate DistinctBy<T, K>(key: T -> K, s: seq<T>) {
    forall i, j :: 0 <= i < j < |s| ==> key(s[i]) != key(s[j])
  }

  lemma {:induction false} InsertByKeepsSorted<T(!new), K(!new)>(less: (K, K) -> bool, key: T -> K, sorted: seq<T>, x: T)
    requires StrictTotalOrder(less)
    requires SortedBy(less, key, sorted) && forall y :: y in sorted ==> key(y) != key(x)
    ensures SortedBy(less, key, InsertBy(less, key, sorted, x))
    ensures forall y :: y in InsertBy(less, key, sorted, x) <==> y == x || y in sorted
  {
    if sorted != [] && !less(key(x), key(sorted[0])) {
      assert sorted[0] in sorted;
      InsertByKeepsSorted(less, key, sorted[1..], x);
      var rest := InsertBy(less, key, sorted[1..], x);
      forall j | 0 <= j < |rest| ensures less(key(sorted[0]), key(rest[j])) {
        assert rest[j] in rest;
        assert rest[j] == x || rest[j] in sorted[1..];
      }
    } else if sorted != [] {
      forall j | 0 <= j < |sorted| ensures less(key(x), key(sorted[j])) {
        if j > 0 { assert less(key(sorted[0]), key(sorted[j])); }
      }
    }
  }

  lemma {:induction false} SortBySorts<T(!new), K(!new)>(less: (K, K) -> bool, key: T -> K, items: seq<T>)
    requires StrictTotalOrder(less) && DistinctBy(key, items)
    ensures SortedBy(less, key, SortBy(less, key, items))
    ensures forall y :: y in SortBy(less, key, items) <==> y in items
  {
    if items != [] {
      var n := |items| - 1;
      SortBySorts(less, key, items[..n]);
      forall y | y in SortBy(less, key, items[..n]) ensures key(y) != key(items[n]) {
        assert y in items[..n];
      }
      InsertByKeepsSorted(less, key, SortBy(less, key, items[..n]), items[n]);
      assert items == items[..n] + [items[n]];
    }
  }

  /** Sorted by distinct keys, a sequence depends only on which items there are, not on their order. */
  lemma {:induction false} SortedByUnique<T(!new), K(!new)>(less: (K, K) -> bool, key: T -> K, a: seq<T>, b: seq<T>)
    requires StrictTotalOrder(less)
    requires SortedBy(less, key, a) && SortedBy(less, key, b)
    requires forall x :: x in a <==> x in b
    ensures a == b
  {
    if a != [] { assert a[0] in b; }
    if b != [] {
      assert b[0] in a;
      assert a[0] == b[0];
      assert forall x :: x in a[1..] <==> x in a && x != a[0];
      assert forall x :: x in b[1..] <==> x in b && x != b[0];
      SortedByUnique(less, key, a[1..], b[1..]);
    }
  }
}

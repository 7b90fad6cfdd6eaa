/** Orders, sorting and order-independent sums: what ordered maps, ordered sets
    and `sort_by_key` mean in this model. An ordered map is a `map` that is
    always walked in the order of `Ascending(less, keys)`. */
module Ordering {
  import opened Bytes

  /** Lexicographic order of byte strings. */
  predicate Less(a: seq<byte>, b: seq<byte>) {
    b != [] && (a == [] || a[0] < b[0] || (a[0] == b[0] && Less(a[1..], b[1..])))
  }

  ghost predicate TotalOrder<K(!new)>(less: (K, K) -> bool) {
    && (forall a :: !less(a, a))
    && (forall a, b, c :: less(a, b) && less(b, c) ==> less(a, c))
    && (forall a, b :: a == b || less(a, b) || less(b, a))
  }

  lemma {:induction false} LessIrreflexive(a: seq<byte>)
    ensures !Less(a, a)
  {
    if a != [] { LessIrreflexive(a[1..]); }
  }

  lemma {:induction false} LessTransitive(a: seq<byte>, b: seq<byte>, c: seq<byte>)
    requires Less(a, b) && Less(b, c)
    ensures Less(a, c)
  {
    if a != [] && a[0] == b[0] && b[0] == c[0] { LessTransitive(a[1..], b[1..], c[1..]); }
  }

  lemma {:induction false} LessTotal(a: seq<byte>, b: seq<byte>)
    ensures a == b || Less(a, b) || Less(b, a)
  {
    if a != [] && b != [] && a[0] == b[0] {
      LessTotal(a[1..], b[1..]);
      assert a == [a[0]] + a[1..] && b == [b[0]] + b[1..];
    }
  }

  lemma LessIsTotalOrder()
    ensures TotalOrder(Less)
  {
    forall a: seq<byte> ensures !Less(a, a) { LessIrreflexive(a); }
    forall a: seq<byte>, b: seq<byte>, c: seq<byte> | Less(a, b) && Less(b, c) ensures Less(a, c) { LessTransitive(a, b, c); }
    forall a: seq<byte>, b: seq<byte> ensures a == b || Less(a, b) || Less(b, a) { LessTotal(a, b); }
  }

  /** Strictly increasing: the only form in which sets and map keys are listed. */
  predicate Increasing<K(!new)>(less: (K, K) -> bool, s: seq<K>) {
    forall i, j :: 0 <= i < j < |s| ==> less(s[i], s[j])
  }

  /** In a strictly increasing list nothing repeats. */
  lemma IncreasingApart<K(!new)>(less: (K, K) -> bool, s: seq<K>, i: nat)
    requires TotalOrder(less) && Increasing(less, s) && i < |s|
    ensures (forall j :: 0 <= j < i ==> s[j] != s[i]) && (i > 0 ==> less(s[i - 1], s[i]))
  {
    forall j | 0 <= j < i ensures s[j] != s[i] { assert less(s[j], s[i]); }
  }

  /** There is one strictly increasing list of the same elements. */
  lemma {:induction false} IncreasingUnique<K(!new)>(less: (K, K) -> bool, a: seq<K>, b: seq<K>)
    requires TotalOrder(less) && Increasing(less, a) && Increasing(less, b) && forall k :: k in a <==> k in b
    ensures a == b
  {
    if a == [] {
      assert forall i :: 0 <= i < |b| ==> b[i] in a;
    } else {
      assert a[0] in a && a[0] in b && b[0] in b && b[0] in a;
      IncreasingFront(less, a);
      IncreasingFront(less, b);
      assert a[0] == b[0];
      IncreasingUnique(less, a[1..], b[1..]);
    }
  }

  lemma IncreasingFront<K(!new)>(less: (K, K) -> bool, s: seq<K>)
    requires TotalOrder(less) && Increasing(less, s) && s != []
    ensures Increasing(less, s[1..]) && s[0] !in s[1..] && forall k :: k in s <==> k == s[0] || k in s[1..]
    ensures forall k :: k in s && k != s[0] ==> less(s[0], k) && !less(k, s[0])
  {
    forall k | k in s[1..] ensures less(s[0], k) {
      var i :| 0 <= i < |s[1..]| && s[1..][i] == k;
      assert s[i + 1] == k;
    }
    assert s == [s[0]] + s[1..];
  }

  predicate Least<K(!new)>(less: (K, K) -> bool, keys: set<K>, least: K) {
    least in keys && forall k :: k in keys && k != least ==> less(least, k)
  }

  lemma {:induction false} LeastExists<K(!new)>(less: (K, K) -> bool, keys: set<K>)
    requires TotalOrder(less) && keys != {}
    ensures exists k :: Least(less, keys, k)
  {
    var k :| k in keys;
    if keys == {k} {
      assert Least(less, keys, k);
    } else {
      LeastExists(less, keys - {k});
      var m :| Least(less, keys - {k}, m);
      if less(k, m) {
        forall j | j in keys && j != k ensures less(k, j) { assert j == m || less(m, j); }
        assert Least(less, keys, k);
      } else {
        assert Least(less, keys, m);
      }
    }
  }

  /** The keys of an ordered map or set, in the order its iterator gives them. */
  function Ascending<K(!new,==)>(less: (K, K) -> bool, keys: set<K>): (r: seq<K>)
    requires TotalOrder(less)
    ensures Increasing(less, r)
    ensures forall k :: k in r <==> k in keys
    ensures |r| == |keys|
    decreases |keys|
  {
    if keys == {} then [] else
    LeastExists(less, keys);
    var least :| least in keys && Least(less, keys, least);
    [least] + Ascending(less, keys - {least})
  }

  // ------------------------------------------------------------------ sorting

  predicate SortedBy<T>(key: T -> int, s: seq<T>) {
    forall i, j :: 0 <= i < j < |s| ==> key(s[i]) <= key(s[j])
  }

  predicate StrictlyBy<T>(key: T -> int, s: seq<T>) {
    forall i, j :: 0 <= i < j < |s| ==> key(s[i]) < key(s[j])
  }

  function InsertBy<T(!new)>(key: T -> int, s: seq<T>, x: T): (r: seq<T>)
    requires SortedBy(key, s)
    ensures SortedBy(key, r) && multiset(r) == multiset(s) + multiset{x}
    ensures forall y :: y in r <==> y == x || y in s
  {
    if s == [] || key(s[|s| - 1]) <= key(x) then
      assert forall y :: y in s + [x] <==> y == x || y in s;
      s + [x]
    else
      assert s == s[..|s| - 1] + [s[|s| - 1]];
      var front := InsertBy(key, s[..|s| - 1], x);
      var r := front + [s[|s| - 1]];
      assert forall y :: y in front ==> key(y) <= key(s[|s| - 1]);
      assert forall y :: y in r <==> y in front || y == s[|s| - 1];
      assert forall y :: y in s <==> y in s[..|s| - 1] || y == s[|s| - 1];
      r
  }

  /** `sort_by_key`: the stable sort of the standard library. */
  function SortBy<T(!new)>(key: T -> int, s: seq<T>): (r: seq<T>)
    ensures SortedBy(key, r) && multiset(r) == multiset(s)
  {
    if s == [] then [] else
    assert s == s[..|s| - 1] + [s[|s| - 1]];
    InsertBy(key, SortBy(key, s[..|s| - 1]), s[|s| - 1])
  }

  /** Distinct keys leave only one sorted arrangement. */
  lemma {:induction false} SortedUnique<T>(key: T -> int, a: seq<T>, b: seq<T>)
    requires SortedBy(key, a) && StrictlyBy(key, b) && multiset(a) == multiset(b)
    ensures a == b
  {
    assert |a| == |multiset(a)| == |multiset(b)| == |b|;
    if a != [] {
      var n := |a| - 1;
      LastAgrees(key, a, b);
      DropLast(a);
      DropLast(b);
      SortedUnique(key, a[..n], b[..n]);
    }
  }

  lemma DropLast<T>(s: seq<T>)
    requires s != []
    ensures s == s[..|s| - 1] + [s[|s| - 1]]
    ensures multiset(s[..|s| - 1]) == multiset(s) - multiset{s[|s| - 1]}
  {
    assert s == s[..|s| - 1] + [s[|s| - 1]];
  }

  lemma LastAgrees<T>(key: T -> int, a: seq<T>, b: seq<T>)
    requires SortedBy(key, a) && StrictlyBy(key, b) && multiset(a) == multiset(b)
    requires |a| == |b| > 0
    ensures a[|a| - 1] == b[|b| - 1]
  {
    var n := |a| - 1;
    assert a[n] in multiset(b) && b[n] in multiset(a);
    var i :| 0 <= i <= n && b[i] == a[n];
    var j :| 0 <= j <= n && a[j] == b[n];
    assert key(b[n]) <= key(a[n]);
  }

  lemma SortBySorted<T(!new)>(key: T -> int, s: seq<T>)
    requires StrictlyBy(key, s)
    ensures SortBy(key, s) == s
  {
    SortedUnique(key, SortBy(key, s), s);
  }

  /** Pushing a new key onto a sorted list and sorting it: the list is the old
      one with the new element at its place, keys still strictly increasing. */
  lemma PushSorted<T(!new)>(key: T -> int, s: seq<T>, x: T)
    requires StrictlyBy(key, s) && forall y :: y in s ==> key(y) != key(x)
    ensures StrictlyBy(key, SortBy(key, s + [x])) && |SortBy(key, s + [x])| == |s| + 1
    ensures forall y :: y in SortBy(key, s + [x]) <==> y == x || y in s
  {
    SortBySorted(key, s);
    assert (s + [x])[..|s|] == s;
    assert SortBy(key, s + [x]) == InsertBy(key, s, x);
    InsertStrict(key, s, x);
    assert |multiset(InsertBy(key, s, x))| == |multiset(s)| + 1;
  }

  /** Dropping the front of a strictly sorted list. */
  lemma StrictFront<T(!new)>(key: T -> int, s: seq<T>)
    requires StrictlyBy(key, s) && s != []
    ensures StrictlyBy(key, s[1..])
    ensures forall x :: x in s[1..] ==> key(s[0]) < key(x)
    ensures forall x :: x in s[1..] <==> x in s && x != s[0]
  {
    var rest := s[1..];
    forall i, j | 0 <= i < j < |rest| ensures key(rest[i]) < key(rest[j]) { assert rest[i] == s[i + 1] && rest[j] == s[j + 1]; }
    forall x | x in rest ensures key(s[0]) < key(x) {
      var i :| 0 <= i < |rest| && rest[i] == x;
      assert s[i + 1] == x;
    }
    assert s == [s[0]] + rest;
  }

  lemma {:induction false} InsertStrict<T(!new)>(key: T -> int, s: seq<T>, x: T)
    requires StrictlyBy(key, s) && forall y :: y in s ==> key(y) != key(x)
    ensures StrictlyBy(key, InsertBy(key, s, x))
  {
    if s != [] && key(s[|s| - 1]) > key(x) {
      var front, last := s[..|s| - 1], s[|s| - 1];
      InsertStrict(key, front, x);
      var inserted := InsertBy(key, front, x);
      assert forall y :: y in inserted ==> key(y) < key(last);
    } else {
      assert InsertBy(key, s, x) == s + [x];
    }
  }

  // --------------------------------------------------------------------- sums

  ghost function MapSum<K>(m: map<K, nat>): nat
    decreases |m|
  {
    if m == map[] then 0 else
    var k :| k in m;
    assert |m - {k}| == |m| - 1 by { assert (m - {k}).Keys == m.Keys - {k}; }
    m[k] + MapSum(m - {k})
  }

  /** The sum does not depend on the key taken first. */
  lemma {:induction false} MapSumTake<K>(m: map<K, nat>, k: K)
    requires k in m
    ensures MapSum(m) == m[k] + MapSum(m - {k})
    decreases |m|
  {
    var j :| j in m && MapSum(m) == m[j] + MapSum(m - {j});
    if j != k {
      assert |m - {j}| == |m| - 1 by { assert (m - {j}).Keys == m.Keys - {j}; }
      assert |m - {k}| == |m| - 1 by { assert (m - {k}).Keys == m.Keys - {k}; }
      MapSumTake(m - {j}, k);
      MapSumTake(m - {k}, j);
      assert m - {j} - {k} == m - {k} - {j};
    }
  }

  lemma MapSumUpdate<K>(m: map<K, nat>, k: K, v: nat)
    ensures MapSum(m[k := v]) == MapSum(m) + v - (if k in m then m[k] else 0)
  {
    MapSumTake(m[k := v], k);
    if k in m {
      MapSumTake(m, k);
      assert m[k := v] - {k} == m - {k};
    } else {
      assert m[k := v] - {k} == m;
    }
  }
}

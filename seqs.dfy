/**
 * The collection operations the app reaches for: `filter`, `firstIndex(where:)`
 * and `sorted(by:)` with a `<` on a string-valued key.
 */
module Seqs {
  import opened Common
  import Text

  // ---------------------------------------------------------------------
  // filter

  /** The elements that satisfy `p`, in their original order. */
  function Filter<T>(s: seq<T>, p: T -> bool): (r: seq<T>)
    ensures |r| <= |s|
    ensures forall k :: 0 <= k < |r| ==> r[k] in s && p(r[k])
    ensures forall k :: 0 <= k < |s| && p(s[k]) ==> s[k] in r
    ensures multiset(r) <= multiset(s)
  {
    if s == [] then []
    else
      assert s == [s[0]] + s[1..];
      (if p(s[0]) then [s[0]] else []) + Filter(s[1..], p)
  }

  /** Filtering distributes over concatenation, so it never reorders what it keeps. */
  lemma {:induction false} FilterAppend<T>(a: seq<T>, b: seq<T>, p: T -> bool)
    ensures Filter(a + b, p) == Filter(a, p) + Filter(b, p)
  {
    if a == [] {
      assert a + b == b;
    } else {
      assert (a + b)[1..] == a[1..] + b;
      FilterAppend(a[1..], b, p);
    }
  }

  /** A filter that every element passes keeps the sequence as it is. */
  lemma {:induction false} FilterKeepsAll<T>(s: seq<T>, p: T -> bool)
    requires forall k :: 0 <= k < |s| ==> p(s[k])
    ensures Filter(s, p) == s
  {
    if s != [] {
      FilterKeepsAll(s[1..], p);
    }
  }

  /** Two tests that agree on the elements select the same subsequence. */
  lemma {:induction false} FilterExtensional<T>(s: seq<T>, p: T -> bool, q: T -> bool)
    requires forall k :: 0 <= k < |s| ==> p(s[k]) == q(s[k])
    ensures Filter(s, p) == Filter(s, q)
  {
    if s != [] {
      FilterExtensional(s[1..], p, q);
    }
  }

  /** Filtering by `p` and then by `q` is filtering once by their conjunction `pq`. */
  lemma {:induction false} FilterFilter<T>(s: seq<T>, p: T -> bool, q: T -> bool, pq: T -> bool)
    requires forall k :: 0 <= k < |s| ==> pq(s[k]) == (p(s[k]) && q(s[k]))
    ensures Filter(Filter(s, p), q) == Filter(s, pq)
  {
    if s != [] {
      FilterFilter(s[1..], p, q, pq);
      var head := if p(s[0]) then [s[0]] else [];
      FilterAppend(head, Filter(s[1..], p), q);
    }
  }

  /** Rearranging a sequence keeps every element in it. */
  lemma SameElements<T>(a: seq<T>, b: seq<T>)
    requires multiset(a) == multiset(b)
    ensures forall k :: 0 <= k < |a| ==> a[k] in b
  {
    forall k | 0 <= k < |a|
      ensures a[k] in b
    {
      assert a[k] in multiset(a);
    }
  }

  // ---------------------------------------------------------------------
  // firstIndex(where:)

  /** The least position whose element satisfies `p`, if any. */
  function FirstIndex<T>(s: seq<T>, p: T -> bool): (r: Option<nat>)
    ensures r.Some? ==> r.value < |s| && p(s[r.value]) && forall k :: 0 <= k < r.value ==> !p(s[k])
    ensures r.None? <==> forall k :: 0 <= k < |s| ==> !p(s[k])
  {
    if s == [] then None
    else if p(s[0]) then Some(0)
    else match FirstIndex(s[1..], p)
      case None => None
      case Some(i) => Some(i + 1)
  }

  /** Position `k` holds the first element of `s` that satisfies `p`. */
  predicate IsFirstMatch<T>(s: seq<T>, k: int, p: T -> bool) {
    0 <= k < |s| && p(s[k]) && forall j :: 0 <= j < k ==> !p(s[j])
  }

  /** `FirstIndex` finds exactly the first match. */
  lemma FirstIndexIsFirstMatch<T>(s: seq<T>, p: T -> bool, k: int)
    ensures FirstIndex(s, p) == Some(k) <==> IsFirstMatch(s, k, p)
  {
  }

  /** Two tests that agree on every element have the same first match. */
  lemma FirstIndexExtensional<T>(s: seq<T>, p: T -> bool, q: T -> bool)
    requires forall k :: 0 <= k < |s| ==> p(s[k]) == q(s[k])
    ensures FirstIndex(s, p) == FirstIndex(s, q)
  {
    match FirstIndex(s, p)
    case None =>
    case Some(i) =>
      FirstIndexIsFirstMatch(s, q, i);
  }

  // ---------------------------------------------------------------------
  // sorted(by:) on a string key

  /** No element's key is `<` the key of an element before it. */
  predicate SortedByKey<T>(s: seq<T>, key: T -> string) {
    forall i, j :: 0 <= i < j < |s| ==> Text.LessOrEqual(key(s[i]), key(s[j]))
  }

  /** Inserts `x` in front of the first element whose key is not `<` its own. */
  function InsertByKey<T>(x: T, s: seq<T>, key: T -> string): (r: seq<T>)
    requires SortedByKey(s, key)
    ensures SortedByKey(r, key)
    ensures multiset(r) == multiset(s) + multiset{x}
    ensures forall j :: 0 <= j < |r| ==> r[j] == x || r[j] in s
  {
    if s == [] then [x]
    else if Text.LessOrEqual(key(x), key(s[0])) then
      SortedCons(x, s, key);
      [x] + s
    else
      Text.LessOrEqualTotal(key(x), key(s[0]));
      var rest := InsertByKey(x, s[1..], key);
      HeadBelowInsertion(x, s, key, rest);
      HeadTail(s);
      [s[0]] + rest
  }

  /** The head of a sorted list stays in front when a larger key is inserted behind it. */
  lemma HeadBelowInsertion<T>(x: T, s: seq<T>, key: T -> string, rest: seq<T>)
    requires s != [] && SortedByKey(s, key) && SortedByKey(rest, key)
    requires Text.LessOrEqual(key(s[0]), key(x))
    requires forall j :: 0 <= j < |rest| ==> rest[j] == x || rest[j] in s[1..]
    ensures SortedByKey([s[0]] + rest, key)
  {
    forall j | 0 <= j < |rest|
      ensures Text.LessOrEqual(key(s[0]), key(rest[j]))
    {
      if rest[j] != x {
        var i :| 0 <= i < |s[1..]| && s[1..][i] == rest[j];
        assert s[i + 1] == rest[j];
      }
    }
    SortedConsBelow(s[0], rest, key);
  }

  lemma HeadTail<T>(s: seq<T>)
    requires s != []
    ensures s == [s[0]] + s[1..]
  {
  }

  lemma SortedCons<T>(x: T, s: seq<T>, key: T -> string)
    requires SortedByKey(s, key)
    requires s != [] && Text.LessOrEqual(key(x), key(s[0]))
    ensures SortedByKey([x] + s, key)
  {
    forall j | 0 < j < |s|
      ensures Text.LessOrEqual(key(x), key(s[j]))
    {
      Text.LessOrEqualTransitive(key(x), key(s[0]), key(s[j]));
    }
  }

  lemma SortedConsBelow<T>(y: T, s: seq<T>, key: T -> string)
    requires SortedByKey(s, key)
    requires forall j :: 0 <= j < |s| ==> Text.LessOrEqual(key(y), key(s[j]))
    ensures SortedByKey([y] + s, key)
  {
  }

  /** A rearrangement of `s` in ascending key order, by insertion sort. */
  function SortByKey<T>(s: seq<T>, key: T -> string): (r: seq<T>)
    ensures SortedByKey(r, key)
    ensures multiset(r) == multiset(s)
  {
    if s == [] then []
    else
      assert s == [s[0]] + s[1..];
      InsertByKey(s[0], SortByKey(s[1..], key), key)
  }

  /** The test "carries key `v`". */
  function HasKey<T>(key: T -> string, v: string): T -> bool {
    (e: T) => key(e) == v
  }

  /** Filtering a sequence with a known head. */
  lemma FilterCons<T>(y: T, t: seq<T>, p: T -> bool)
    ensures Filter([y] + t, p) == (if p(y) then [y] else []) + Filter(t, p)
  {
    assert ([y] + t)[1..] == t;
  }

  /** An element strictly below `x` never carries the key `x` carries. */
  lemma BelowHasOtherKey<T>(y: T, x: T, key: T -> string, v: string)
    requires Text.Less(key(y), key(x))
    ensures HasKey(key, v)(y) ==> !HasKey(key, v)(x)
  {
    Text.LessAsymmetric(key(y), key(y));
  }

  /**
   * Inserting never moves `x` past an element with the same key: among the
   * elements carrying any one key, `x` comes first and the rest keep their order.
   */
  lemma {:induction false} InsertByKeyStable<T>(x: T, t: seq<T>, key: T -> string, v: string)
    requires SortedByKey(t, key)
    ensures Filter(InsertByKey(x, t, key), HasKey(key, v))
      == (if key(x) == v then [x] else []) + Filter(t, HasKey(key, v))
    decreases |t|
  {
    var p := HasKey(key, v);
    if t == [] {
      FilterCons(x, t, p);
    } else if Text.LessOrEqual(key(x), key(t[0])) {
      FilterCons(x, t, p);
    } else {
      InsertBehindHeadStable(x, t, key, v);
    }
  }

  /** The step of `InsertByKeyStable` where `x` goes behind the head of `t`. */
  lemma {:induction false} InsertBehindHeadStable<T>(x: T, t: seq<T>, key: T -> string, v: string)
    requires SortedByKey(t, key) && t != [] && !Text.LessOrEqual(key(x), key(t[0]))
    ensures Filter(InsertByKey(x, t, key), HasKey(key, v))
      == (if key(x) == v then [x] else []) + Filter(t, HasKey(key, v))
    decreases |t|, 0
  {
    var p := HasKey(key, v);
    var rest := InsertByKey(x, t[1..], key);
    assert InsertByKey(x, t, key) == [t[0]] + rest;
    FilterCons(t[0], rest, p);
    InsertByKeyStable(x, t[1..], key, v);
    HeadTail(t);
    FilterCons(t[0], t[1..], p);
    BelowHasOtherKey(t[0], x, key, v);
    Commute(if p(t[0]) then [t[0]] else [], if key(x) == v then [x] else [],
            Filter(t[1..], p), Filter(rest, p), Filter(t, p));
  }

  /** Two pieces, one of them empty, can be put in front in either order. */
  lemma Commute<T>(a: seq<T>, b: seq<T>, c: seq<T>, bc: seq<T>, ac: seq<T>)
    requires a == [] || b == []
    requires bc == b + c && ac == a + c
    ensures a + bc == b + ac
  {
  }
  /**
   * `SortByKey` is stable: the elements carrying any one key appear in the
   * result in the order they had in the input.
   */
  lemma {:induction false} SortByKeyStable<T>(s: seq<T>, key: T -> string, v: string)
    ensures Filter(SortByKey(s, key), HasKey(key, v)) == Filter(s, HasKey(key, v))
    decreases |s|
  {
    if s != [] {
      SortByKeyStable(s[1..], key, v);
      InsertByKeyStable(s[0], SortByKey(s[1..], key), key, v);
    }
  }
}

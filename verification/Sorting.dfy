/** What the program takes from Python's built-ins: the order on strings and a stable sort.
    A sort is given by the permutation it applies, so that stability can be stated. */
module Sorting {

  /** Python's `<=` on strings: by code point, a proper prefix first. */
  predicate TextLeq(a: string, b: string) {
    a == [] || (b != [] && (a[0] < b[0] || (a[0] == b[0] && TextLeq(a[1..], b[1..]))))
  }

  predicate TextLess(a: string, b: string) {
    TextLeq(a, b) && a != b
  }

  ghost predicate TotalPreorder<T(!new)>(leq: (T, T) -> bool) {
    && (forall x, y :: leq(x, y) || leq(y, x))
    && (forall x, y, z :: leq(x, y) && leq(y, z) ==> leq(x, z))
  }

  lemma {:induction false} TextLeqTotal(a: string, b: string)
    ensures TextLeq(a, b) || TextLeq(b, a)
  {
    if a != [] && b != [] {
      TextLeqTotal(a[1..], b[1..]);
    }
  }

  lemma {:induction false} TextLeqTransitive(a: string, b: string, c: string)
    requires TextLeq(a, b) && TextLeq(b, c)
    ensures TextLeq(a, c)
  {
    if a != [] && a[0] == b[0] == c[0] {
      TextLeqTransitive(a[1..], b[1..], c[1..]);
    }
  }

  lemma {:induction false} TextLeqAntisymmetric(a: string, b: string)
    requires TextLeq(a, b) && TextLeq(b, a)
    ensures a == b
  {
    if a != [] {
      TextLeqAntisymmetric(a[1..], b[1..]);
      assert a == [a[0]] + a[1..] && b == [b[0]] + b[1..];
    }
  }

  /** a comes strictly first: a proper prefix, or smaller at the first difference. */
  ghost predicate FirstDifference(a: string, b: string, k: int) {
    0 <= k < |a| && k < |b| && a[..k] == b[..k] && a[k] < b[k]
  }

  lemma {:induction false} TextLessMeans(a: string, b: string)
    ensures TextLess(a, b) <==> a < b || exists k :: FirstDifference(a, b, k)
  {
    if a == [] || b == [] {
    } else if a[0] != b[0] {
      assert FirstDifference(a, b, 0) <==> a[0] < b[0];
      forall k | k > 0 ensures !FirstDifference(a, b, k) {
        if k < |a| && k < |b| { assert a[..k][0] == a[0] && b[..k][0] == b[0]; }
      }
    } else {
      TextLessMeans(a[1..], b[1..]);
      assert a == [a[0]] + a[1..] && b == [b[0]] + b[1..];
      forall k | 0 <= k < |a| - 1 && k < |b| - 1
        ensures FirstDifference(a, b, k + 1) <==> FirstDifference(a[1..], b[1..], k)
      {
        assert a[..k + 1] == [a[0]] + a[1..][..k] && b[..k + 1] == [b[0]] + b[1..][..k];
        assert a[..k + 1] == b[..k + 1] ==> a[1..][..k] == a[..k + 1][1..] == b[..k + 1][1..] == b[1..][..k];
      }
      if exists k :: FirstDifference(a, b, k) {
        var k :| FirstDifference(a, b, k);
        assert FirstDifference(a[1..], b[1..], k - 1);
      }
      if exists k :: FirstDifference(a[1..], b[1..], k) {
        var k :| FirstDifference(a[1..], b[1..], k);
        assert FirstDifference(a, b, k + 1);
      }
    }
  }

  lemma TextLeqIsTotalPreorder()
    ensures TotalPreorder(TextLeq)
  {
    forall x, y ensures TextLeq(x, y) || TextLeq(y, x) { TextLeqTotal(x, y); }
    forall x, y, z | TextLeq(x, y) && TextLeq(y, z) ensures TextLeq(x, z) { TextLeqTransitive(x, y, z); }
  }

  /** `order` lists every position below n exactly once. */
  ghost predicate IsPermutation(order: seq<nat>, n: nat) {
    && |order| == n
    && (forall k :: 0 <= k < n ==> order[k] < n)
    && (forall j, k :: 0 <= j < k < n ==> order[j] != order[k])
    && (forall i :: 0 <= i < n ==> i in order)
  }

  /** Position i comes before position j in a stable sort of `keys`. */
  ghost predicate Before<T>(keys: seq<T>, leq: (T, T) -> bool, i: nat, j: nat)
    requires i < |keys| && j < |keys|
  {
    leq(keys[i], keys[j]) && (leq(keys[j], keys[i]) ==> i < j)
  }

  ghost predicate IsStableOrder<T>(keys: seq<T>, leq: (T, T) -> bool, order: seq<nat>) {
    && IsPermutation(order, |keys|)
    && forall j, k :: 0 <= j < k < |order| ==> Before(keys, leq, order[j], order[k])
  }

  /** The permutation applied by Python's `sorted(..., key=...)`. */
  function StableOrder<T(!new)>(keys: seq<T>, leq: (T, T) -> bool): (order: seq<nat>)
    requires TotalPreorder(leq)
    ensures IsStableOrder(keys, leq, order)
  {
    if keys == [] then []
    else
      var last := |keys| - 1;
      var rest := StableOrder(keys[..last], leq);
      var at := InsertionPoint(keys, leq, rest, last);
      InsertKeepsOrder(keys, leq, rest, at);
      rest[..at] + [last] + rest[at..]
  }

  /** How many of the leading positions of `order` hold keys not above the new one. */
  function InsertionPoint<T(!new)>(keys: seq<T>, leq: (T, T) -> bool, order: seq<nat>, i: nat): (at: nat)
    requires i < |keys| && forall k :: 0 <= k < |order| ==> order[k] < |keys|
    ensures at <= |order|
    ensures forall k :: 0 <= k < at ==> leq(keys[order[k]], keys[i])
    ensures at < |order| ==> !leq(keys[order[at]], keys[i])
  {
    if order == [] || !leq(keys[order[0]], keys[i]) then 0
    else
      var rest := InsertionPoint(keys, leq, order[1..], i);
      assert forall k :: 0 < k < rest + 1 ==> order[k] == order[1..][k - 1];
      rest + 1
  }

  lemma InsertIsPermutation(rest: seq<nat>, at: nat, n: nat)
    requires IsPermutation(rest, n) && at <= n
    ensures IsPermutation(rest[..at] + [n] + rest[at..], n + 1)
  {
    var order := rest[..at] + [n] + rest[at..];
    forall i | 0 <= i < n + 1 ensures i in order {
      if i < n {
        assert i in rest;
        var k :| 0 <= k < |rest| && rest[k] == i;
        assert order[if k < at then k else k + 1] == i;
      } else {
        assert order[at] == i;
      }
    }
  }

  /** The new position comes after those before it and before those after it. */
  lemma InsertedBefore<T(!new)>(keys: seq<T>, leq: (T, T) -> bool, rest: seq<nat>, at: nat, k: nat)
    requires TotalPreorder(leq) && keys != [] && at <= |rest| && k < |rest|
    requires IsStableOrder(keys[..|keys| - 1], leq, rest)
    requires forall j :: 0 <= j < at ==> leq(keys[rest[j]], keys[|keys| - 1])
    requires at < |rest| ==> !leq(keys[rest[at]], keys[|keys| - 1])
    ensures k < at ==> Before(keys, leq, rest[k], |keys| - 1)
    ensures k >= at ==> Before(keys, leq, |keys| - 1, rest[k])
  {
    if k > at {
      assert Before(keys[..|keys| - 1], leq, rest[at], rest[k]);
    }
  }

  lemma InsertKeepsOrder<T(!new)>(keys: seq<T>, leq: (T, T) -> bool, rest: seq<nat>, at: nat)
    requires TotalPreorder(leq) && keys != [] && at <= |rest|
    requires IsStableOrder(keys[..|keys| - 1], leq, rest)
    requires forall k :: 0 <= k < at ==> leq(keys[rest[k]], keys[|keys| - 1])
    requires at < |rest| ==> !leq(keys[rest[at]], keys[|keys| - 1])
    ensures IsStableOrder(keys, leq, rest[..at] + [|keys| - 1] + rest[at..])
  {
    var last := |keys| - 1;
    var order := rest[..at] + [last] + rest[at..];
    InsertIsPermutation(rest, at, last);
    forall j, k | 0 <= j < k < |order| ensures Before(keys, leq, order[j], order[k]) {
      if j == at {
        InsertedBefore(keys, leq, rest, at, k - 1);
      } else if k == at {
        InsertedBefore(keys, leq, rest, at, j);
      } else {
        assert Before(keys[..last], leq, rest[if j < at then j else j - 1], rest[if k < at then k else k - 1]);
      }
    }
  }

  /** `items` listed in the order of a permutation. */
  function Rearranged<T(!new)>(items: seq<T>, order: seq<nat>): (r: seq<T>)
    requires IsPermutation(order, |items|)
    ensures |r| == |items|
    ensures forall k :: 0 <= k < |items| ==> r[k] == items[order[k]]
    ensures forall x :: x in r <==> x in items
  {
    var r := seq(|items|, k requires 0 <= k < |items| => items[order[k]]);
    assert forall x :: x in r ==> x in items;
    assert forall x :: x in items ==> x in r by {
      forall x | x in items ensures x in r {
        var i :| 0 <= i < |items| && items[i] == x;
        assert i in order;
        var k :| 0 <= k < |order| && order[k] == i;
        assert r[k] == x;
      }
    }
    r
  }

  lemma RemovedIsPermutation(order: seq<nat>, p: nat, n: nat)
    requires IsPermutation(order, n + 1) && p <= n && order[p] == n
    ensures IsPermutation(order[..p] + order[p + 1..], n)
  {
    var rest := order[..p] + order[p + 1..];
    forall i | 0 <= i < n ensures i in rest {
      assert i in order;
      var k :| 0 <= k < |order| && order[k] == i;
      assert rest[if k < p then k else k - 1] == i;
    }
  }

  lemma WithoutLast<T(!new)>(items: seq<T>, order: seq<nat>, p: nat, k: nat)
    requires items != [] && IsPermutation(order, |items|) && p < |order| && order[p] == |items| - 1 && k < |items|
    requires IsPermutation(order[..p] + order[p + 1..], |items| - 1)
    ensures var shorter := Rearranged(items[..|items| - 1], order[..p] + order[p + 1..]);
      Rearranged(items, order)[k] == if k < p then shorter[k] else if k == p then items[|items| - 1] else shorter[k - 1]
  {
    var rest := order[..p] + order[p + 1..];
    assert k < p ==> rest[k] == order[k];
    assert k > p ==> rest[k - 1] == order[k];
  }

  lemma Reinserted<T(!new)>(items: seq<T>, order: seq<nat>, p: nat)
    requires items != [] && IsPermutation(order, |items|) && p < |order| && order[p] == |items| - 1
    ensures IsPermutation(order[..p] + order[p + 1..], |items| - 1)
    ensures var shorter := Rearranged(items[..|items| - 1], order[..p] + order[p + 1..]);
      Rearranged(items, order) == shorter[..p] + [items[|items| - 1]] + shorter[p..]
  {
    RemovedIsPermutation(order, p, |items| - 1);
    var r, shorter := Rearranged(items, order), Rearranged(items[..|items| - 1], order[..p] + order[p + 1..]);
    forall k | 0 <= k < |r| ensures r[k] == (shorter[..p] + [items[|items| - 1]] + shorter[p..])[k] {
      WithoutLast(items, order, p, k);
    }
  }

  lemma OneMoreItem<T>(s: seq<T>, p: nat, x: T)
    requires p <= |s|
    ensures multiset(s[..p] + [x] + s[p..]) == multiset(s) + multiset{x}
  {
    assert s == s[..p] + s[p..];
  }

  lemma WithLast<T>(s: seq<T>)
    requires s != []
    ensures multiset(s) == multiset(s[..|s| - 1]) + multiset{s[|s| - 1]}
  {
    assert s == s[..|s| - 1] + [s[|s| - 1]];
  }

  lemma WithItem<T>(s: seq<T>, k: nat)
    requires k < |s|
    ensures s == s[..k] + [s[k]] + s[k + 1..]
    ensures multiset(s) == multiset(s[..k] + s[k + 1..]) + multiset{s[k]}
  {
    assert s == s[..k] + [s[k]] + s[k + 1..];
  }

  /** A rearrangement keeps every item as often as it was. */
  lemma {:induction false} RearrangedKeepsAll<T(!new)>(items: seq<T>, order: seq<nat>)
    requires IsPermutation(order, |items|)
    ensures multiset(Rearranged(items, order)) == multiset(items)
    decreases |items|
  {
    if items != [] {
      var n := |items| - 1;
      assert n in order;
      var p: nat :| p < |order| && order[p] == n;
      OneFewer(items, order, p);
      RearrangedKeepsAll(items[..n], order[..p] + order[p + 1..]);
      WithLast(items);
    }
  }

  lemma OneFewer<T(!new)>(items: seq<T>, order: seq<nat>, p: nat)
    requires items != [] && IsPermutation(order, |items|) && p < |order| && order[p] == |items| - 1
    ensures IsPermutation(order[..p] + order[p + 1..], |items| - 1)
    ensures multiset(Rearranged(items, order))
            == multiset(Rearranged(items[..|items| - 1], order[..p] + order[p + 1..])) + multiset{items[|items| - 1]}
  {
    Reinserted(items, order, p);
    OneMoreItem(Rearranged(items[..|items| - 1], order[..p] + order[p + 1..]), p, items[|items| - 1]);
  }

  // ---------- strictly sorted sequences are determined by their elements ----------

  ghost predicate StrictlySorted<T(!new)>(s: seq<T>, less: (T, T) -> bool) {
    forall j, k :: 0 <= j < k < |s| ==> less(s[j], s[k])
  }

  ghost predicate Asymmetric<T(!new)>(less: (T, T) -> bool) {
    forall x, y :: less(x, y) ==> !less(y, x)
  }

  lemma {:induction false} SortedFromElements<T(!new)>(a: seq<T>, b: seq<T>, less: (T, T) -> bool)
    requires Asymmetric(less) && StrictlySorted(a, less) && StrictlySorted(b, less)
    requires forall x :: x in a <==> x in b
    ensures a == b
  {
    assert (a != [] ==> a[0] in a) && (b != [] ==> b[0] in b);
    if a != [] && b != [] {
      assert a[0] in b && b[0] in a;
      assert a[0] == b[0];
      forall x ensures x in a[1..] <==> x in b[1..] {
        if x in a[1..] { assert x in b && less(a[0], x); }
        if x in b[1..] { assert x in a && less(b[0], x); }
      }
      SortedFromElements(a[1..], b[1..], less);
      assert a == [a[0]] + a[1..] && b == [b[0]] + b[1..];
    }
  }
}

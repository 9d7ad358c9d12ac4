/** Sets of ids as ascending lists, and small sequence and set tools. */
module Sorting {

  /** `ids` lists `s` in ascending order. */
  ghost predicate Lists(ids: seq<nat>, s: set<nat>) {
    && (forall i, j :: 0 <= i < j < |ids| ==> ids[i] < ids[j])
    && (forall x :: x in ids <==> x in s)
  }

  /** The distinct ids, ascending: collect, sort, dedup. */
  method SortedIds(ids: set<nat>) returns (s: seq<nat>)
    ensures Lists(s, ids)
  {
    s := [];
    var rest := ids;
    while rest != {}
      invariant rest <= ids && Lists(s, ids - rest)
      invariant forall i, y :: 0 <= i < |s| && y in rest ==> s[i] < y
      decreases |rest|
    {
      var x := Smallest(rest);
      assert forall y :: y in s + [x] <==> y in s || y == x;
      rest := rest - {x};
      s := s + [x];
    }
  }

  method Smallest(s: set<nat>) returns (x: nat)
    requires s != {}
    ensures x in s && forall y :: y in s ==> x <= y
  {
    x :| x in s;
    var rest := s - {x};
    while rest != {}
      invariant x in s && rest <= s && forall y :: y in s && y !in rest ==> x <= y
      decreases |rest|
    {
      var y :| y in rest;
      if y < x { x := y; }
      rest := rest - {y};
    }
  }

  lemma {:induction false} MaxOf(s: set<nat>) returns (m: nat)
    requires s != {}
    ensures m in s && forall x :: x in s ==> x <= m
  {
    var y :| y in s;
    m := y;
    if s != {y} {
      var top := MaxOf(s - {y});
      m := if top > y then top else y;
      assert forall x :: x in s ==> x == y || x in s - {y};
    }
  }

  lemma {:induction false} ListExists(s: set<nat>) returns (ids: seq<nat>)
    ensures Lists(ids, s)
  {
    if s == {} {
      return [];
    }
    var m := MaxOf(s);
    var init := ListExists(s - {m});
    ids := init + [m];
    forall x ensures x in ids <==> x in s {
      assert x in init <==> x in s - {m};
    }
    forall i, j | 0 <= i < j < |ids| ensures ids[i] < ids[j] {
      assert ids[i] in init;
    }
  }

  lemma {:induction false} ListsSize(ids: seq<nat>, s: set<nat>)
    requires Lists(ids, s)
    ensures |ids| == |s|
  {
    if ids == [] {
      assert s == {};
    } else {
      var m := |ids| - 1;
      forall x ensures x in ids[..m] <==> x in s - {ids[m]} {
        assert x in ids <==> x in ids[..m] || x == ids[m];
      }
      ListsSize(ids[..m], s - {ids[m]});
    }
  }

  /** 0, 1, ..., n-1. */
  function UpTo(n: nat): (s: seq<nat>)
    ensures |s| == n && forall i :: 0 <= i < n ==> s[i] == i
  {
    seq(n, i => i)
  }

  function InsertAt<T>(s: seq<T>, at: nat, x: T): (r: seq<T>)
    requires at <= |s|
    ensures |r| == |s| + 1
    ensures forall k :: 0 <= k < |r| ==> r[k] == if k < at then s[k] else if k == at then x else s[k - 1]
  {
    s[..at] + [x] + s[at..]
  }

  lemma Missing<T>(a: set<T>, b: set<T>) returns (x: T)
    requires a <= b && |a| != |b|
    ensures x in b && x !in a
  {
    assert b == a + (b - a);
    assert |b - a| != 0;
    x :| x in b - a;
  }

  lemma SubsetSize<T>(a: set<T>, b: set<T>)
    requires a <= b
    ensures |a| <= |b|
  {
    assert b == a + (b - a);
  }

  // ----- orders by key

  /** `order` lists the indices of `keys` by ascending key, ties by index. */
  ghost predicate SortedOrder(keys: seq<real>, order: seq<nat>) {
    SortedTo(keys, |keys|, order)
  }

  /** `order` does so for the first `n` indices. */
  ghost predicate SortedTo(keys: seq<real>, n: nat, order: seq<nat>)
    requires n <= |keys|
  {
    && |order| == n
    && (forall k :: 0 <= k < n ==> order[k] < n)
    && (forall i: nat :: i < n ==> Listed(order, i))
    && (forall a, b :: 0 <= a < b < n ==>
          keys[order[a]] < keys[order[b]] || (keys[order[a]] == keys[order[b]] && order[a] < order[b]))
  }

  ghost predicate Listed(order: seq<nat>, i: nat) {
    exists k :: 0 <= k < |order| && order[k] == i
  }

  /** A stable sort of the indices by key. */
  method SortOrder(keys: seq<real>) returns (order: seq<nat>)
    ensures SortedOrder(keys, order)
  {
    order := [];
    for i := 0 to |keys|
      invariant SortedTo(keys, i, order)
    {
      var at := 0;
      while at < |order| && keys[order[at]] <= keys[i]
        invariant at <= |order| && forall k :: 0 <= k < at ==> keys[order[k]] <= keys[i]
      {
        at := at + 1;
      }
      InsertKeeps(keys, i, order, at);
      order := InsertAt(order, at, i);
    }
  }

  /** The first place from `at` on whose key is above `x`. */
  function Place(keys: seq<real>, order: seq<nat>, x: real, at: nat): (place: nat)
    requires at <= |order| && forall k :: 0 <= k < |order| ==> order[k] < |keys|
    ensures at <= place <= |order|
    decreases |order| - at
  {
    if at < |order| && keys[order[at]] <= x then Place(keys, order, x, at + 1) else at
  }

  /** The first `n` indices in order: a stable sort, as a function. */
  function OrderOf(keys: seq<real>, n: nat): (order: seq<nat>)
    requires n <= |keys|
    ensures |order| == n && forall k :: 0 <= k < n ==> order[k] < n
  {
    if n == 0 then []
    else
      var init := OrderOf(keys, n - 1);
      InsertAt(init, Place(keys, init, keys[n - 1], 0), n - 1)
  }

  lemma {:induction false} PlaceParts(keys: seq<real>, order: seq<nat>, x: real, at: nat)
    requires at <= |order| && forall k :: 0 <= k < |order| ==> order[k] < |keys|
    ensures var place := Place(keys, order, x, at);
      && (forall k :: at <= k < place ==> keys[order[k]] <= x)
      && (place < |order| ==> x < keys[order[place]])
    decreases |order| - at
  {
    if at < |order| && keys[order[at]] <= x { PlaceParts(keys, order, x, at + 1); }
  }

  lemma {:induction false} OrderOfSorts(keys: seq<real>, n: nat)
    requires n <= |keys|
    ensures SortedTo(keys, n, OrderOf(keys, n))
  {
    if n > 0 {
      var init := OrderOf(keys, n - 1);
      OrderOfSorts(keys, n - 1);
      PlaceParts(keys, init, keys[n - 1], 0);
      InsertKeeps(keys, n - 1, init, Place(keys, init, keys[n - 1], 0));
    }
  }

  lemma InsertKeeps(keys: seq<real>, i: nat, order: seq<nat>, at: nat)
    requires i < |keys| && SortedTo(keys, i, order) && at <= |order|
    requires forall k :: 0 <= k < at ==> keys[order[k]] <= keys[i]
    requires at < |order| ==> keys[i] < keys[order[at]]
    ensures SortedTo(keys, i + 1, InsertAt(order, at, i))
  {
    var r := InsertAt(order, at, i);
    forall x: nat | x < i + 1 ensures Listed(r, x) {
      InsertLists(order, at, i, x);
    }
  }

  lemma InsertLists(order: seq<nat>, at: nat, i: nat, x: nat)
    requires at <= |order| && (x == i || Listed(order, x))
    ensures Listed(InsertAt(order, at, i), x)
  {
    var r := InsertAt(order, at, i);
    if x == i {
      assert r[at] == i;
    } else {
      var k :| 0 <= k < |order| && order[k] == x;
      assert r[if k < at then k else k + 1] == x;
    }
  }
}

/** Canonical cluster ids: contiguous, ordered by descending size and then by
    first member, a function of the partition alone. */
module ClusterIds {
  import opened Sorting

  // ----- the partition behind a label vector

  function Count(labels: seq<nat>, l: nat, k: nat): nat
    requires k <= |labels|
  {
    if k == 0 then 0 else Count(labels, l, k - 1) + if labels[k - 1] == l then 1 else 0
  }

  function Size(labels: seq<nat>, i: nat): nat
    requires i < |labels|
  {
    Count(labels, labels[i], |labels|)
  }

  /** The positions below `k` that carry label `l`. */
  ghost function Members(labels: seq<nat>, l: nat, k: nat): set<nat>
    requires k <= |labels|
  {
    set i: nat | i < k && labels[i] == l
  }

  lemma {:induction false} CountIsMembers(labels: seq<nat>, l: nat, k: nat)
    requires k <= |labels|
    ensures Count(labels, l, k) == |Members(labels, l, k)|
  {
    if k > 0 {
      CountIsMembers(labels, l, k - 1);
      var before := Members(labels, l, k - 1);
      assert Members(labels, l, k) == if labels[k - 1] == l then before + {k - 1} else before;
    }
  }

  /** No earlier embedding carries this label. */
  predicate IsFirst(labels: seq<nat>, f: nat)
    requires f < |labels|
  {
    forall k :: 0 <= k < f ==> labels[k] != labels[f]
  }

  ghost predicate IsFirstOf(labels: seq<nat>, f: nat, i: nat) {
    f < |labels| && i < |labels| && IsFirst(labels, f) && labels[f] == labels[i]
  }

  lemma {:induction false} FirstExists(labels: seq<nat>, i: nat) returns (f: nat)
    requires i < |labels|
    ensures f <= i && IsFirstOf(labels, f, i)
  {
    if k: nat :| k < i && labels[k] == labels[i] {
      f := FirstExists(labels, k);
    } else {
      f := i;
    }
  }

  /** Cluster `f` is numbered before cluster `g`. */
  predicate Ahead(labels: seq<nat>, f: nat, g: nat)
    requires f < |labels| && g < |labels|
  {
    Size(labels, f) > Size(labels, g) || (Size(labels, f) == Size(labels, g) && f < g)
  }

  ghost function Firsts(labels: seq<nat>): set<nat> {
    set f | 0 <= f < |labels| && IsFirst(labels, f)
  }

  ghost function FirstsAhead(labels: seq<nat>, f: nat): set<nat>
    requires f < |labels|
  {
    set g | 0 <= g < |labels| && IsFirst(labels, g) && Ahead(labels, g, f)
  }

  /** Each embedding gets the number of clusters ahead of its own. */
  ghost predicate Canonical(labels: seq<nat>, out: seq<nat>) {
    && |out| == |labels|
    && forall f: nat, i: nat :: IsFirstOf(labels, f, i) ==> out[i] == |FirstsAhead(labels, f)|
  }

  // ----- what canonical ids are worth

  lemma AheadGrows(labels: seq<nat>, f: nat, g: nat)
    requires f < |labels| && g < |labels| && IsFirst(labels, f) && Ahead(labels, f, g)
    ensures |FirstsAhead(labels, f)| < |FirstsAhead(labels, g)|
  {
    assert f in FirstsAhead(labels, g) && f !in FirstsAhead(labels, f);
    Smaller(FirstsAhead(labels, f), FirstsAhead(labels, g), f);
  }

  lemma Smaller(a: set<nat>, b: set<nat>, x: nat)
    requires a <= b && x in b && x !in a
    ensures |a| < |b|
  {
    assert b == (a + {x}) + (b - a - {x});
  }

  /** Ids order the clusters: smaller id exactly when larger, or as large and first seen. */
  lemma IdsAreOrdered(labels: seq<nat>, out: seq<nat>, f: nat, i: nat, g: nat, j: nat)
    requires Canonical(labels, out) && IsFirstOf(labels, f, i) && IsFirstOf(labels, g, j)
    ensures out[i] < out[j] <==> Ahead(labels, f, g)
    ensures out[i] == out[j] <==> labels[i] == labels[j]
  {
    if Ahead(labels, f, g) {
      AheadGrows(labels, f, g);
    } else if Ahead(labels, g, f) {
      AheadGrows(labels, g, f);
    }
  }

  /** The cluster with more members has the smaller id; of two as large, the one whose first
      member comes first. */
  lemma LargerComesFirst(labels: seq<nat>, out: seq<nat>, f: nat, i: nat, g: nat, j: nat)
    requires Canonical(labels, out) && IsFirstOf(labels, f, i) && IsFirstOf(labels, g, j)
    ensures var a, b := |Members(labels, labels[i], |labels|)|, |Members(labels, labels[j], |labels|)|;
      (a > b ==> out[i] < out[j]) && (a == b && f < g ==> out[i] < out[j])
  {
    CountIsMembers(labels, labels[i], |labels|);
    CountIsMembers(labels, labels[j], |labels|);
    IdsAreOrdered(labels, out, f, i, g, j);
  }

  /** Ids keep the partition. */
  lemma IdsKeepThePartition(labels: seq<nat>, out: seq<nat>, i: nat, j: nat)
    requires Canonical(labels, out) && i < |labels| && j < |labels|
    ensures out[i] == out[j] <==> labels[i] == labels[j]
  {
    var f := FirstExists(labels, i);
    var g := FirstExists(labels, j);
    IdsAreOrdered(labels, out, f, i, g, j);
  }

  ghost predicate SamePartition(a: seq<nat>, b: seq<nat>) {
    |a| == |b| && forall i, j :: 0 <= i < |a| && 0 <= j < |a| ==> (a[i] == a[j] <==> b[i] == b[j])
  }

  lemma {:induction false} SameCount(a: seq<nat>, b: seq<nat>, i: nat, k: nat)
    requires SamePartition(a, b) && i < |a| && k <= |a|
    ensures Count(a, a[i], k) == Count(b, b[i], k)
  {
    if k > 0 { SameCount(a, b, i, k - 1); }
  }

  /** Ids depend only on the partition, not on the labels that spell it. */
  lemma IdsDependOnThePartition(a: seq<nat>, b: seq<nat>, outA: seq<nat>, outB: seq<nat>)
    requires SamePartition(a, b) && Canonical(a, outA) && Canonical(b, outB)
    ensures outA == outB
  {
    forall f | 0 <= f < |a| ensures Size(a, f) == Size(b, f) && IsFirst(a, f) == IsFirst(b, f) {
      SameCount(a, b, f, |a|);
    }
    forall i | 0 <= i < |a| ensures outA[i] == outB[i] {
      var f := FirstExists(a, i);
      assert IsFirstOf(b, f, i);
      assert FirstsAhead(a, f) == FirstsAhead(b, f);
    }
  }

  /** Ids are contiguous: below the number of clusters, and each one taken. */
  lemma IdsAreContiguous(labels: seq<nat>, out: seq<nat>)
    requires Canonical(labels, out)
    ensures forall i :: 0 <= i < |labels| ==> out[i] < |Firsts(labels)|
    ensures forall x: nat :: x < |Firsts(labels)| ==> x in out
  {
    forall i | 0 <= i < |labels| ensures out[i] < |Firsts(labels)| {
      var f := FirstExists(labels, i);
      Smaller(FirstsAhead(labels, f), Firsts(labels), f);
    }
    forall x: nat | x < |Firsts(labels)| ensures x in out {
      var f := AtRank(labels, Firsts(labels), x);
      assert IsFirstOf(labels, f, f);
      assert out[f] == x;
    }
  }

  /** Among the clusters `s`, one has exactly `x` of `s` ahead of it. */
  lemma {:induction false} AtRankIn(labels: seq<nat>, s: set<nat>, x: nat) returns (f: nat)
    requires s <= Firsts(labels) && x < |s|
    ensures f in s && |s * FirstsAhead(labels, f)| == x
    decreases |s|
  {
    var last := LastOf(labels, s);
    if x == |s| - 1 {
      f := last;
      assert s * FirstsAhead(labels, f) == s - {f};
    } else {
      f := AtRankIn(labels, s - {last}, x);
      assert s * FirstsAhead(labels, f) == (s - {last}) * FirstsAhead(labels, f);
    }
  }

  lemma AtRank(labels: seq<nat>, s: set<nat>, x: nat) returns (f: nat)
    requires s == Firsts(labels) && x < |s|
    ensures f in s && |FirstsAhead(labels, f)| == x
  {
    f := AtRankIn(labels, s, x);
    assert s * FirstsAhead(labels, f) == FirstsAhead(labels, f);
  }

  lemma {:induction false} LastOf(labels: seq<nat>, s: set<nat>) returns (f: nat)
    requires s <= Firsts(labels) && s != {}
    ensures f in s && forall g :: g in s && g != f ==> Ahead(labels, g, f)
    decreases |s|
  {
    var h :| h in s;
    if s == {h} {
      f := h;
    } else {
      assert s - {h} != {};
      var r := LastOf(labels, s - {h});
      f := if Ahead(labels, h, r) then r else h;
      forall g | g in s && g != f ensures Ahead(labels, g, f) {
        assert g != h && g != r ==> Ahead(labels, g, r);
      }
    }
  }

  // ----- computing them

  /** A label with its cluster's size and first member. */
  datatype Group = Group(size: nat, first: nat, tag: nat)

  /** What is known of the groups after `k` labels. */
  ghost predicate Grouped(labels: seq<nat>, k: nat, group: map<nat, (nat, nat)>)
    requires k <= |labels|
  {
    && (forall i :: 0 <= i < k ==> labels[i] in group)
    && (forall l :: l in group ==>
          group[l].1 < k && labels[group[l].1] == l && IsFirst(labels, group[l].1) && group[l].0 == Count(labels, l, k))
  }

  lemma {:induction false} CountUnseen(labels: seq<nat>, l: nat, k: nat)
    requires k <= |labels| && forall i :: 0 <= i < k ==> labels[i] != l
    ensures Count(labels, l, k) == 0
  {
    if k > 0 { CountUnseen(labels, l, k - 1); }
  }

  method CollectGroups(labels: seq<nat>) returns (group: map<nat, (nat, nat)>)
    ensures Grouped(labels, |labels|, group)
  {
    group := map[];
    for idx := 0 to |labels|
      invariant Grouped(labels, idx, group)
    {
      var l := labels[idx];
      if l !in group {
        CountUnseen(labels, l, idx);
      }
      var entry := if l in group then group[l] else (0, idx);
      group := group[l := (entry.0 + 1, entry.1)];
    }
  }

  ghost predicate GroupOk(labels: seq<nat>, g: Group) {
    && g.first < |labels| && IsFirst(labels, g.first) && labels[g.first] == g.tag
    && g.size == Size(labels, g.first)
  }

  /** `order` lists the clusters, each by its first member, in the order of their ids. */
  ghost predicate Ordered(labels: seq<nat>, order: seq<Group>, done: set<nat>) {
    && (forall k :: 0 <= k < |order| ==> GroupOk(labels, order[k]) && order[k].tag in done)
    && (forall l :: l in done ==> HasTag(order, l))
    && (forall a, b :: 0 <= a < b < |order| ==> Ahead(labels, order[a].first, order[b].first))
  }

  ghost predicate HasTag(order: seq<Group>, l: nat) {
    exists k :: 0 <= k < |order| && order[k].tag == l
  }

  method SortGroups(labels: seq<nat>, group: map<nat, (nat, nat)>) returns (order: seq<Group>)
    requires Grouped(labels, |labels|, group)
    ensures Ordered(labels, order, group.Keys)
  {
    order := [];
    var todo := group.Keys;
    while todo != {}
      invariant todo <= group.Keys && Ordered(labels, order, group.Keys - todo)
      decreases |todo|
    {
      var l :| l in todo;
      var g := Group(group[l].0, group[l].1, l);
      var at := PlaceOf(labels, order, group.Keys - todo, g);
      InsertGroup(labels, order, group.Keys - todo, at, g);
      order := InsertAt(order, at, g);
      assert group.Keys - (todo - {l}) == (group.Keys - todo) + {l};
      todo := todo - {l};
    }
    assert group.Keys - todo == group.Keys;
  }

  method PlaceOf(labels: seq<nat>, order: seq<Group>, ghost done: set<nat>, g: Group) returns (at: nat)
    requires Ordered(labels, order, done) && GroupOk(labels, g)
    ensures at <= |order| && forall k :: 0 <= k < at ==> Ahead(labels, order[k].first, g.first)
    ensures at < |order| ==> !Ahead(labels, order[at].first, g.first)
  {
    at := 0;
    while at < |order| && (order[at].size > g.size || (order[at].size == g.size && order[at].first < g.first))
      invariant at <= |order| && forall k :: 0 <= k < at ==> Ahead(labels, order[k].first, g.first)
    {
      assert GroupOk(labels, order[at]);
      at := at + 1;
    }
  }

  lemma InsertGroup(labels: seq<nat>, order: seq<Group>, done: set<nat>, at: nat, g: Group)
    requires Ordered(labels, order, done) && at <= |order| && g.tag !in done
    requires GroupOk(labels, g)
    requires forall k :: 0 <= k < at ==> Ahead(labels, order[k].first, g.first)
    requires at < |order| ==> !Ahead(labels, order[at].first, g.first)
    ensures Ordered(labels, InsertAt(order, at, g), done + {g.tag})
  {
    var r := InsertAt(order, at, g);
    InsertSorted(labels, order, done, at, g);
    forall l | l in done + {g.tag} ensures HasTag(r, l) {
      if l == g.tag {
        assert r[at].tag == l;
      } else {
        assert HasTag(order, l);
        var k :| 0 <= k < |order| && order[k].tag == l;
        assert r[if k < at then k else k + 1].tag == l;
      }
    }
  }

  /** The newcomer sits behind everything ahead of it and before the rest. */
  lemma InsertSorted(labels: seq<nat>, order: seq<Group>, done: set<nat>, at: nat, g: Group)
    requires Ordered(labels, order, done) && at <= |order| && g.tag !in done && GroupOk(labels, g)
    requires forall k :: 0 <= k < at ==> Ahead(labels, order[k].first, g.first)
    requires at < |order| ==> !Ahead(labels, order[at].first, g.first)
    ensures forall k :: 0 <= k <= |order| ==> GroupOk(labels, InsertAt(order, at, g)[k])
    ensures forall a, b :: 0 <= a < b <= |order| ==>
      Ahead(labels, InsertAt(order, at, g)[a].first, InsertAt(order, at, g)[b].first)
  {
    forall k | at <= k < |order| ensures Ahead(labels, g.first, order[k].first) {
      assert order[at].tag in done && GroupOk(labels, order[at]);
      assert k > at ==> Ahead(labels, order[at].first, order[k].first);
    }
  }

  ghost function FirstSet(order: seq<Group>, k: nat): set<nat>
    requires k <= |order|
  {
    set a | 0 <= a < k :: order[a].first
  }

  lemma {:induction false} FirstSetSize(labels: seq<nat>, order: seq<Group>, done: set<nat>, k: nat)
    requires Ordered(labels, order, done) && k <= |order|
    ensures |FirstSet(order, k)| == k
  {
    if k > 0 {
      FirstSetSize(labels, order, done, k - 1);
      assert FirstSet(order, k) == FirstSet(order, k - 1) + {order[k - 1].first};
      forall a | 0 <= a < k - 1 ensures order[a].first != order[k - 1].first {
        assert Ahead(labels, order[a].first, order[k - 1].first);
      }
    } else {
      assert FirstSet(order, k) == {};
    }
  }

  /** The position of a cluster in the order is the number of clusters ahead. */
  lemma PositionIsRank(labels: seq<nat>, order: seq<Group>, done: set<nat>, k: nat)
    requires Ordered(labels, order, done) && k < |order|
    requires forall i :: 0 <= i < |labels| ==> labels[i] in done
    ensures |FirstsAhead(labels, order[k].first)| == k
  {
    FirstSetSize(labels, order, done, k);
    var ahead := FirstsAhead(labels, order[k].first);
    forall g | g in ahead ensures g in FirstSet(order, k) {
      assert HasTag(order, labels[g]);
      var a :| 0 <= a < |order| && order[a].tag == labels[g];
      SameFirst(labels, order[a].first, g);
      assert k < a ==> Ahead(labels, order[k].first, order[a].first);
    }
    forall g | g in FirstSet(order, k) ensures g in ahead {
      var a :| 0 <= a < k && order[a].first == g;
      assert Ahead(labels, order[a].first, order[k].first);
    }
    assert ahead == FirstSet(order, k);
  }

  lemma SameFirst(labels: seq<nat>, f: nat, g: nat)
    requires f < |labels| && g < |labels| && IsFirst(labels, f) && IsFirst(labels, g) && labels[f] == labels[g]
    ensures f == g
  {
  }

  /** `canonical` numbers the tags by their place among the first `id` of the order. */
  ghost predicate Numbered(order: seq<Group>, id: nat, canonical: map<nat, nat>)
    requires id <= |order|
  {
    && (forall k :: 0 <= k < id ==> order[k].tag in canonical)
    && (forall l :: l in canonical ==> canonical[l] < id && order[canonical[l]].tag == l)
  }

  lemma NumberedIsCanonical(labels: seq<nat>, order: seq<Group>, done: set<nat>, canonical: map<nat, nat>,
      out: seq<nat>)
    requires Ordered(labels, order, done) && Numbered(order, |order|, canonical) && |out| == |labels|
    requires forall i :: 0 <= i < |labels| ==>
      labels[i] in done && labels[i] in canonical && out[i] == canonical[labels[i]]
    ensures Canonical(labels, out)
  {
    forall f: nat, i: nat | IsFirstOf(labels, f, i) ensures out[i] == |FirstsAhead(labels, f)| {
      PositionIsRank(labels, order, done, out[i]);
      assert GroupOk(labels, order[out[i]]);
      SameFirst(labels, order[out[i]].first, f);
    }
  }

  method Rename(labels: seq<nat>, canonical: map<nat, nat>) returns (out: seq<nat>)
    requires forall i :: 0 <= i < |labels| ==> labels[i] in canonical
    ensures |out| == |labels| && forall i :: 0 <= i < |labels| ==> out[i] == canonical[labels[i]]
  {
    out := labels;
    for i := 0 to |labels|
      invariant |out| == |labels|
      invariant forall k :: i <= k < |labels| ==> out[k] == labels[k]
      invariant forall k :: 0 <= k < i ==> out[k] == canonical[labels[k]]
    {
      out := out[i := canonical[out[i]]];
    }
  }

  method CompactClusterIds(labels: seq<nat>) returns (out: seq<nat>)
    ensures Canonical(labels, out)
  {
    var group := CollectGroups(labels);
    var order := SortGroups(labels, group);
    var canonical: map<nat, nat> := map[];
    for id := 0 to |order|
      invariant Numbered(order, id, canonical)
    {
      canonical := canonical[order[id].tag := id];
    }
    forall i | 0 <= i < |labels| ensures labels[i] in group.Keys && labels[i] in canonical {
      assert HasTag(order, labels[i]);
    }
    out := Rename(labels, canonical);
    NumberedIsCanonical(labels, order, group.Keys, canonical, out);
  }
}

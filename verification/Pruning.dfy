/** Dissolving clusters that are too small, by member count or by speech time. */
module Pruning {
  import opened ClusterIds
  import opened Measure
  import opened Sorting
  import opened Wrappers

  // ----- survivors

  /** The labels whose metric passes; if none does, the one label with the largest
      metric, ties to the smaller label. */
  ghost predicate Survivors(metrics: map<nat, real>, keep: real, s: set<nat>) {
    && s <= metrics.Keys
    && ((exists l :: l in metrics && metrics[l] >= keep) ==>
          forall l :: l in metrics ==> (l in s <==> metrics[l] >= keep))
    && ((forall l :: l in metrics ==> metrics[l] < keep) && metrics != map[] ==>
          exists b :: b in metrics && s == {b} &&
            forall l :: l in metrics && l != b ==> metrics[b] > metrics[l] || (metrics[b] == metrics[l] && b < l))
  }

  method SurvivorsOrLargest(metrics: map<nat, real>, keep: real) returns (s: set<nat>)
    ensures Survivors(metrics, keep, s)
  {
    s := set l | l in metrics && metrics[l] >= keep;
    if s == {} {
      var todo := metrics.Keys;
      var best: Option<nat> := None;
      while todo != {}
        invariant todo <= metrics.Keys
        invariant best.None? ==> todo == metrics.Keys
        invariant best.Some? ==> best.value in metrics && best.value !in todo
        invariant best.Some? ==> forall l :: l in metrics && l !in todo && l != best.value ==>
          metrics[best.value] > metrics[l] || (metrics[best.value] == metrics[l] && best.value < l)
        decreases |todo|
      {
        var l :| l in todo;
        todo := todo - {l};
        if best.None? || !(metrics[best.value] > metrics[l] || (metrics[best.value] == metrics[l] && best.value <= l)) {
          best := Some(l);
        }
      }
      assert forall l :: l in metrics ==> metrics[l] < keep by {
        forall l | l in metrics ensures metrics[l] < keep {
          assert l !in s;
        }
      }
      if best.Some? {
        s := {best.value};
      }
    }
  }

  // ----- reassignment

  ghost predicate Occurs(labels: seq<nat>, l: nat) {
    exists i :: 0 <= i < |labels| && labels[i] == l
  }

  /** `out` numbers the survivors 0..K without gaps, keeps their members together
      and sends every other member to a survivor. */
  ghost predicate Pruned(labels: seq<nat>, survivors: set<nat>, out: seq<nat>) {
    && |out| == |labels|
    && (forall i :: 0 <= i < |labels| ==> out[i] < |survivors|)
    && (forall i, j :: 0 <= i < |labels| && 0 <= j < |labels| && labels[i] in survivors && labels[j] in survivors ==>
          (out[i] == out[j] <==> labels[i] == labels[j]) && (out[i] < out[j] <==> labels[i] < labels[j]))
    && (forall s: nat :: s < |survivors| ==> Hosted(labels, survivors, out, s))
  }

  /** Slot `s` is the home of a survivor. */
  ghost predicate Hosted(labels: seq<nat>, survivors: set<nat>, out: seq<nat>, s: nat)
    requires |out| == |labels|
  {
    exists j :: 0 <= j < |labels| && labels[j] in survivors && out[j] == s
  }

  /** `best` is the first of the slots that `i` is most similar to. */
  ghost predicate MostSimilar(sim: (nat, nat) -> real, i: nat, slots: nat, best: nat) {
    best < slots && forall s: nat :: s < slots ==> sim(i, s) < sim(i, best) || (sim(i, s) == sim(i, best) && best <= s)
  }

  /** Every member of a cluster that did not survive is in the slot most similar to it. */
  ghost predicate Joined(sim: (nat, nat) -> real, labels: seq<nat>, survivors: set<nat>, out: seq<nat>)
    requires |out| == |labels|
  {
    forall i: nat :: i < |labels| && labels[i] !in survivors ==> MostSimilar(sim, i, |survivors|, out[i])
  }

  /** What the shared tail returns; `total` is the number of clusters before. */
  ghost predicate Finished(sim: (nat, nat) -> real, labels: seq<nat>, survivors: set<nat>, total: nat, out: seq<nat>) {
    if survivors == {} || |survivors| == total then out == labels
    else Pruned(labels, survivors, out) && Joined(sim, labels, survivors, out)
  }

  /** The first slot of highest similarity, slot 0 when there is none. */
  method Nearest(sim: (nat, nat) -> real, i: nat, slots: nat) returns (best: nat)
    ensures slots > 0 ==> MostSimilar(sim, i, slots, best)
  {
    best := 0;
    var bestSim: Option<real> := None;
    for s := 0 to slots
      invariant s == 0 <==> bestSim.None?
      invariant s > 0 ==> bestSim == Some(sim(i, best)) && MostSimilar(sim, i, s, best)
    {
      if bestSim.None? || sim(i, s) > bestSim.value {
        best, bestSim := s, Some(sim(i, s));
      }
    }
  }

  /** `sim(i, s)` is the similarity of embedding `i` to the centroid of survivor `s`. */
  method FinishPrune(sim: (nat, nat) -> real, labels: seq<nat>, survivors: set<nat>, total: nat) returns (out: seq<nat>)
    requires forall l :: l in survivors ==> Occurs(labels, l)
    ensures Finished(sim, labels, survivors, total, out)
  {
    if survivors == {} || |survivors| == total {
      return labels;
    }
    var order := SortedIds(survivors);
    ListsSize(order, survivors);
    out := seq(|labels|, _ => 0);
    for i := 0 to |labels|
      invariant |out| == |labels|
      invariant forall k :: 0 <= k < i ==> out[k] < |order|
      invariant forall k :: 0 <= k < i && labels[k] in survivors ==> order[out[k]] == labels[k]
      invariant forall k: nat :: k < i && labels[k] !in survivors ==> MostSimilar(sim, k, |order|, out[k])
    {
      if labels[i] in survivors {
        var s :| 0 <= s < |order| && order[s] == labels[i];
        out := out[i := s];
      } else {
        var s := Nearest(sim, i, |order|);
        out := out[i := s];
      }
    }
    forall s: nat | s < |survivors| ensures Hosted(labels, survivors, out, s) {
      assert order[s] in order && Occurs(labels, order[s]);
      var j :| 0 <= j < |labels| && labels[j] == order[s];
      assert order[out[j]] == order[s];
    }
  }

  // ----- what pruning achieves

  ghost predicate OneCluster(labels: seq<nat>) {
    forall i, j :: 0 <= i < |labels| && 0 <= j < |labels| ==> labels[i] == labels[j]
  }

  lemma {:induction false} CountMonotone(a: seq<nat>, x: nat, b: seq<nat>, y: nat, k: nat)
    requires |a| == |b| && k <= |a| && forall i :: 0 <= i < |a| && a[i] == x ==> b[i] == y
    ensures Count(a, x, k) <= Count(b, y, k)
  {
    if k > 0 { CountMonotone(a, x, b, y, k - 1); }
  }

  /** Every cluster of the result contains all members of some survivor. */
  lemma ClusterHasHost(labels: seq<nat>, survivors: set<nat>, out: seq<nat>, i: nat) returns (j: nat)
    requires Pruned(labels, survivors, out) && i < |labels|
    ensures j < |labels| && labels[j] in survivors && out[j] == out[i]
    ensures forall k :: 0 <= k < |labels| && labels[k] == labels[j] ==> out[k] == out[i]
  {
    assert Hosted(labels, survivors, out, out[i]);
    j :| 0 <= j < |labels| && labels[j] in survivors && out[j] == out[i];
  }

  lemma OneSurvivor(labels: seq<nat>, b: nat, out: seq<nat>)
    requires Pruned(labels, {b}, out)
    ensures OneCluster(out)
  {
  }

  /** One metric per label in use. */
  ghost predicate Keyed(labels: seq<nat>, metrics: map<nat, real>) {
    && (forall i :: 0 <= i < |labels| ==> labels[i] in metrics)
    && (forall l :: l in metrics ==> Occurs(labels, l))
  }

  ghost predicate AllPass(labels: seq<nat>, metrics: map<nat, real>, keep: real)
    requires Keyed(labels, metrics)
  {
    forall i :: 0 <= i < |labels| ==> metrics[labels[i]] >= keep
  }

  lemma OneLabel(labels: seq<nat>, metrics: map<nat, real>)
    requires OneCluster(labels) && Keyed(labels, metrics)
    ensures metrics == map[] || exists l :: l in metrics && metrics.Keys == {l}
  {
    if metrics != map[] {
      var l :| l in metrics;
      assert Occurs(labels, l);
      forall x | x in metrics ensures x == l {
        assert Occurs(labels, x);
      }
      assert metrics.Keys == {l};
    }
  }

  /** When every cluster passes, or there is only one, all survive. */
  lemma EverybodySurvives(labels: seq<nat>, metrics: map<nat, real>, keep: real, s: set<nat>)
    requires Keyed(labels, metrics) && Survivors(metrics, keep, s)
    requires AllPass(labels, metrics, keep) || OneCluster(labels)
    ensures s == {} || |s| == |metrics|
  {
    if AllPass(labels, metrics, keep) {
      forall l | l in metrics ensures metrics[l] >= keep {
        assert Occurs(labels, l);
      }
      assert metrics == map[] || s == metrics.Keys;
    } else {
      OneLabel(labels, metrics);
      if metrics != map[] {
        var l :| l in metrics && metrics.Keys == {l};
        assert s == {} || s == {l};
        assert |metrics| == |metrics.Keys|;
      }
    }
  }

  /** If all survive, every cluster passes or there is only one. */
  lemma AllSurvived(labels: seq<nat>, metrics: map<nat, real>, keep: real, s: set<nat>)
    requires Keyed(labels, metrics) && Survivors(metrics, keep, s) && |s| == |metrics|
    ensures AllPass(labels, metrics, keep) || OneCluster(labels)
  {
    assert metrics.Keys == s + (metrics.Keys - s);
    assert |metrics| == |metrics.Keys|;
    assert s == metrics.Keys;
    if !(exists l :: l in metrics && metrics[l] >= keep) && metrics != map[] {
      var b :| b in metrics && s == {b};
      forall i | 0 <= i < |labels| ensures labels[i] == b {
        assert labels[i] in metrics.Keys;
      }
    } else {
      forall i | 0 <= i < |labels| ensures metrics[labels[i]] >= keep {
        assert labels[i] in metrics.Keys;
      }
    }
  }

  /** Otherwise every cluster of the result hosts a passing one, or there is only one. */
  lemma SomeDissolved(labels: seq<nat>, metrics: map<nat, real>, keep: real, s: set<nat>, out: seq<nat>)
    requires Keyed(labels, metrics) && Survivors(metrics, keep, s) && s != {} && Pruned(labels, s, out)
    ensures OneCluster(out) || forall i :: 0 <= i < |labels| ==> HostPasses(labels, metrics, keep, out, i)
  {
    if exists l :: l in metrics && metrics[l] >= keep {
      forall i | 0 <= i < |labels| ensures HostPasses(labels, metrics, keep, out, i) {
        var j := ClusterHasHost(labels, s, out, i);
        assert Hosts(labels, out, j, i);
      }
    } else {
      var b :| b in metrics && s == {b};
      OneSurvivor(labels, b, out);
    }
  }

  /** All members of `j`'s old cluster are in `i`'s new one. */
  ghost predicate Hosts(labels: seq<nat>, out: seq<nat>, j: nat, i: nat) {
    && |out| == |labels| && j < |labels| && i < |labels|
    && forall k :: 0 <= k < |labels| && labels[k] == labels[j] ==> out[k] == out[i]
  }

  ghost predicate HostPasses(labels: seq<nat>, metrics: map<nat, real>, keep: real, out: seq<nat>, i: nat)
    requires Keyed(labels, metrics)
  {
    exists j :: 0 <= j < |labels| && Hosts(labels, out, j, i) && metrics[labels[j]] >= keep
  }

  /** Clusters that pass keep their members together and apart from each other. */
  ghost predicate KeepsPassing(labels: seq<nat>, metrics: map<nat, real>, keep: real, out: seq<nat>)
    requires Keyed(labels, metrics) && |out| == |labels|
  {
    forall i, j | 0 <= i < |labels| && 0 <= j < |labels| ::
      metrics[labels[i]] >= keep && metrics[labels[j]] >= keep ==>
      (out[i] == out[j] <==> labels[i] == labels[j])
  }

  /** Survivors are chosen by the metric and everybody else joins one of them. */
  ghost predicate Dissolved(sim: (nat, nat) -> real, labels: seq<nat>, metrics: map<nat, real>, keep: real,
                            out: seq<nat>)
  {
    exists s: set<nat> :: Survivors(metrics, keep, s) && Finished(sim, labels, s, |metrics|, out)
  }

  /** What a prune keeps together, and where its clusters come from. */
  lemma DissolvedKeeps(sim: (nat, nat) -> real, labels: seq<nat>, metrics: map<nat, real>, keep: real, out: seq<nat>)
    requires Keyed(labels, metrics) && Dissolved(sim, labels, metrics, keep, out)
    ensures |out| == |labels| && KeepsPassing(labels, metrics, keep, out)
    ensures OneCluster(out) || forall i :: 0 <= i < |labels| ==> HostPasses(labels, metrics, keep, out, i)
  {
    var s: set<nat> :| Survivors(metrics, keep, s) && Finished(sim, labels, s, |metrics|, out);
    if AllPass(labels, metrics, keep) || OneCluster(labels) {
      EverybodySurvives(labels, metrics, keep, s);
      assert forall i :: 0 <= i < |labels| ==> Hosts(labels, out, i, i);
    } else {
      SomeGone(labels, metrics, keep, s);
      SomeDissolved(labels, metrics, keep, s, out);
    }
  }

  /** Unless every cluster passes, or there is only one, some survive and some do not. */
  lemma SomeGone(labels: seq<nat>, metrics: map<nat, real>, keep: real, s: set<nat>)
    requires Keyed(labels, metrics) && Survivors(metrics, keep, s)
    requires !AllPass(labels, metrics, keep) && !OneCluster(labels)
    ensures s != {} && |s| != |metrics|
  {
    assert metrics != map[];
    if |s| == |metrics| {
      AllSurvived(labels, metrics, keep, s);
      assert false;
    }
  }

  /** A prune leaves the labels alone exactly when every cluster passes or there is only one. */
  lemma LeftAloneExactlyWhen(sim: (nat, nat) -> real, labels: seq<nat>, metrics: map<nat, real>, keep: real,
                             out: seq<nat>)
    requires Keyed(labels, metrics) && Dissolved(sim, labels, metrics, keep, out)
    ensures out == labels <==> AllPass(labels, metrics, keep) || OneCluster(labels)
  {
    var s: set<nat> :| Survivors(metrics, keep, s) && Finished(sim, labels, s, |metrics|, out);
    if AllPass(labels, metrics, keep) || OneCluster(labels) {
      EverybodySurvives(labels, metrics, keep, s);
    } else {
      SomeGone(labels, metrics, keep, s);
      var i := Newcomer(labels, metrics, s);
      var j := ClusterHasHost(labels, s, out, i);
    }
  }

  /** Some member's cluster does not survive. */
  lemma Newcomer(labels: seq<nat>, metrics: map<nat, real>, s: set<nat>) returns (i: nat)
    requires Keyed(labels, metrics) && s <= metrics.Keys && |s| != |metrics|
    ensures i < |labels| && labels[i] !in s
  {
    assert |metrics| == |metrics.Keys|;
    var l := Missing(s, metrics.Keys);
    assert Occurs(labels, l);
    i :| 0 <= i < |labels| && labels[i] == l;
  }

  /** Choose the survivors and finish: the whole effect of a prune on a metric. */
  method PruneBy(sim: (nat, nat) -> real, labels: seq<nat>, metrics: map<nat, real>, keep: real) returns (out: seq<nat>)
    requires Keyed(labels, metrics)
    ensures Dissolved(sim, labels, metrics, keep, out)
    ensures out == labels <==> AllPass(labels, metrics, keep) || OneCluster(labels)
  {
    var survivors := SurvivorsOrLargest(metrics, keep);
    out := FinishPrune(sim, labels, survivors, |metrics|);
    LeftAloneExactlyWhen(sim, labels, metrics, keep, out);
  }

  // ----- by size

  ghost predicate AllLarge(labels: seq<nat>, minSize: nat) {
    forall i :: 0 <= i < |labels| ==> Size(labels, i) >= minSize
  }

  /** Large clusters keep their members together and apart from each other. */
  ghost predicate KeepsLarge(labels: seq<nat>, minSize: nat, out: seq<nat>)
    requires |out| == |labels|
  {
    forall i, j :: 0 <= i < |labels| && 0 <= j < |labels| && Size(labels, i) >= minSize && Size(labels, j) >= minSize
      ==> (out[i] == out[j] <==> labels[i] == labels[j])
  }

  /** The count of each label in use. */
  function SizeMap(labels: seq<nat>): (sizes: map<nat, real>)
    ensures Keyed(labels, sizes)
  {
    var sizes: map<nat, real> := map l | l in labels :: Count(labels, l, |labels|) as real;
    assert forall l :: l in sizes ==> Occurs(labels, l);
    sizes
  }

  method CountSizes(labels: seq<nat>) returns (sizes: map<nat, real>)
    ensures sizes == SizeMap(labels)
  {
    sizes := map[];
    for k := 0 to |labels|
      invariant forall i :: 0 <= i < k ==> labels[i] in sizes
      invariant forall l :: l in sizes ==> l in labels && sizes[l] == Count(labels, l, k) as real
    {
      var l := labels[k];
      if l !in sizes { CountUnseen(labels, l, k); }
      sizes := sizes[l := (if l in sizes then sizes[l] else 0.0) + 1.0];
    }
  }

  lemma {:induction false} CountSeen(labels: seq<nat>, l: nat, i: nat, k: nat)
    requires i < k <= |labels| && labels[i] == l
    ensures Count(labels, l, k) >= 1
  {
    if i < k - 1 { CountSeen(labels, l, i, k - 1); }
  }

  /** `out` is a result of pruning `labels` by member count. */
  ghost predicate SizePruned(sim: (nat, nat) -> real, labels: seq<nat>, minSize: nat, out: seq<nat>) {
    if minSize <= 1 then out == labels else Dissolved(sim, labels, SizeMap(labels), minSize as real, out)
  }

  /** Prune by member count. After it every cluster is large enough or only one is
      left; large clusters keep their members together; the labels are left alone
      exactly when they meet that bar already. */
  method PruneSmallClusters(sim: (nat, nat) -> real, labels: seq<nat>, minSize: nat) returns (out: seq<nat>)
    ensures SizePruned(sim, labels, minSize, out) && |out| == |labels|
    ensures AllLarge(out, minSize) || OneCluster(out)
    ensures KeepsLarge(labels, minSize, out)
    ensures out == labels <==> AllLarge(labels, minSize) || OneCluster(labels)
  {
    if minSize <= 1 {
      out := labels;
    } else {
      var sizes := CountSizes(labels);
      out := PruneBy(sim, labels, sizes, minSize as real);
    }
    SizePrunedIsLarge(sim, labels, minSize, out);
    SizesLeftAlone(sim, labels, minSize, out);
  }

  lemma SizePrunedIsLarge(sim: (nat, nat) -> real, labels: seq<nat>, minSize: nat, out: seq<nat>)
    requires SizePruned(sim, labels, minSize, out)
    ensures |out| == |labels| && KeepsLarge(labels, minSize, out)
    ensures AllLarge(out, minSize) || OneCluster(out)
  {
    if minSize <= 1 {
      EveryoneCounts(labels, minSize);
    } else {
      var sizes := SizeMap(labels);
      DissolvedKeeps(sim, labels, sizes, minSize as real, out);
      LargeAreKept(labels, minSize, minSize as real, out);
      if !OneCluster(out) { HostsAreLarge(labels, minSize, minSize as real, out); }
    }
  }

  lemma EveryoneCounts(labels: seq<nat>, minSize: nat)
    requires minSize <= 1
    ensures AllLarge(labels, minSize)
  {
    forall i | 0 <= i < |labels| ensures Size(labels, i) >= 1 {
      CountSeen(labels, labels[i], i, |labels|);
    }
  }

  lemma SizesLeftAlone(sim: (nat, nat) -> real, labels: seq<nat>, minSize: nat, out: seq<nat>)
    requires SizePruned(sim, labels, minSize, out)
    ensures out == labels <==> AllLarge(labels, minSize) || OneCluster(labels)
  {
    if minSize <= 1 {
      EveryoneCounts(labels, minSize);
    } else {
      LeftAloneExactlyWhen(sim, labels, SizeMap(labels), minSize as real, out);
      assert forall i :: 0 <= i < |labels| ==> SizeMap(labels)[labels[i]] == Size(labels, i) as real;
    }
  }

  /** Pruning by member count a second time changes nothing, whatever the similarities. */
  lemma PruneTwiceBySize(sim: (nat, nat) -> real, sim': (nat, nat) -> real, labels: seq<nat>, minSize: nat,
                         out: seq<nat>, again: seq<nat>)
    requires SizePruned(sim, labels, minSize, out) && SizePruned(sim', out, minSize, again)
    ensures again == out
  {
    SizePrunedIsLarge(sim, labels, minSize, out);
    SizesLeftAlone(sim', out, minSize, again);
  }

  lemma LargeAreKept(labels: seq<nat>, minSize: nat, keep: real, out: seq<nat>)
    requires |out| == |labels| && keep == minSize as real && KeepsPassing(labels, SizeMap(labels), keep, out)
    ensures KeepsLarge(labels, minSize, out)
  {
    forall i, j | 0 <= i < |labels| && 0 <= j < |labels| && Size(labels, i) >= minSize && Size(labels, j) >= minSize
      ensures out[i] == out[j] <==> labels[i] == labels[j]
    {
      assert SizeMap(labels)[labels[i]] >= keep && SizeMap(labels)[labels[j]] >= keep;
    }
  }

  /** Clusters that large ones went into whole are large. */
  lemma HostsAreLarge(labels: seq<nat>, minSize: nat, keep: real, out: seq<nat>)
    requires |out| == |labels| && keep == minSize as real
    requires forall i :: 0 <= i < |labels| ==> HostPasses(labels, SizeMap(labels), keep, out, i)
    ensures AllLarge(out, minSize)
  {
    forall i | 0 <= i < |labels| ensures Size(out, i) >= minSize {
      assert HostPasses(labels, SizeMap(labels), keep, out, i);
      var j :| 0 <= j < |labels| && Hosts(labels, out, j, i) && SizeMap(labels)[labels[j]] >= keep;
      CountMonotone(labels, labels[j], out, out[i], |labels|);
    }
  }

  // ----- by speech time

  /** The windows of label `l` among the first `k`. */
  function Windows(times: seq<TimeRange>, labels: seq<nat>, l: nat, k: nat): seq<TimeRange>
    requires k <= |labels| == |times|
  {
    if k == 0 then []
    else if labels[k - 1] == l then Windows(times, labels, l, k - 1) + [times[k - 1]]
    else Windows(times, labels, l, k - 1)
  }

  /** The speech time of each label in use. */
  ghost function DurationMap(times: seq<TimeRange>, labels: seq<nat>): (durations: map<nat, real>)
    requires |times| == |labels|
    ensures Keyed(labels, durations) && forall l :: l in durations <==> l in labels
    ensures forall l :: l in durations ==> durations[l] == SpeechTime(Windows(times, labels, l, |labels|))
  {
    var durations: map<nat, real> := map l | l in labels :: SpeechTime(Windows(times, labels, l, |labels|));
    assert forall l :: l in durations ==> Occurs(labels, l);
    durations
  }

  /** No label has a loose window. */
  ghost predicate AllAnchored(times: seq<TimeRange>, labels: seq<nat>)
    requires |times| == |labels|
  {
    forall i :: 0 <= i < |labels| ==> Anchored(Windows(times, labels, labels[i], |labels|))
  }

  lemma {:induction false} WindowsForward(times: seq<TimeRange>, labels: seq<nat>, l: nat, k: nat)
    requires k <= |labels| == |times| && Forward(times)
    ensures Forward(Windows(times, labels, l, k))
  {
    if k > 0 { WindowsForward(times, labels, l, k - 1); }
  }

  /** Forward windows are anchored, whatever the labels. */
  lemma ForwardIsAllAnchored(times: seq<TimeRange>, labels: seq<nat>)
    requires |times| == |labels| && Forward(times)
    ensures AllAnchored(times, labels)
  {
    forall i | 0 <= i < |labels| ensures Anchored(Windows(times, labels, labels[i], |labels|)) {
      WindowsForward(times, labels, labels[i], |labels|);
      ForwardIsAnchored(Windows(times, labels, labels[i], |labels|));
    }
  }

  lemma {:induction false} WindowsUnseen(times: seq<TimeRange>, labels: seq<nat>, l: nat, k: nat)
    requires k <= |labels| == |times| && forall i :: 0 <= i < k ==> labels[i] != l
    ensures Windows(times, labels, l, k) == []
  {
    if k > 0 { WindowsUnseen(times, labels, l, k - 1); }
  }

  /** A point is inside a label's windows exactly when one of them holds it. */
  lemma {:induction false} InsideWindows(times: seq<TimeRange>, labels: seq<nat>, l: nat, k: nat, x: real)
    requires k <= |labels| == |times|
    ensures Inside(x, Windows(times, labels, l, k)) <==>
      exists i :: 0 <= i < k && labels[i] == l && times[i].start <= x <= times[i].end
  {
    if k > 0 {
      InsideWindows(times, labels, l, k - 1, x);
      if labels[k - 1] == l {
        LastInside(x, Windows(times, labels, l, k - 1), times[k - 1]);
      }
    }
  }

  /** More members, no less speech. */
  lemma HostSpeech(times: seq<TimeRange>, labels: seq<nat>, out: seq<nat>, j: nat, i: nat)
    requires |times| == |labels| && Hosts(labels, out, j, i)
    ensures Within(Windows(times, labels, labels[j], |labels|), Windows(times, out, out[i], |labels|))
  {
    forall x: real | Inside(x, Windows(times, labels, labels[j], |labels|))
      ensures Inside(x, Windows(times, out, out[i], |labels|))
    {
      InsideWindows(times, labels, labels[j], |labels|, x);
      InsideWindows(times, out, out[i], |labels|, x);
    }
  }

  method WindowsByLabel(times: seq<TimeRange>, labels: seq<nat>) returns (byLabel: map<nat, seq<TimeRange>>)
    requires |times| == |labels|
    ensures byLabel.Keys == set l | l in labels
    ensures forall l :: l in byLabel ==> byLabel[l] == Windows(times, labels, l, |labels|)
  {
    byLabel := map[];
    for k := 0 to |labels|
      invariant forall i :: 0 <= i < k ==> labels[i] in byLabel
      invariant forall l :: l in byLabel ==> l in labels && byLabel[l] == Windows(times, labels, l, k)
    {
      var l := labels[k];
      if l !in byLabel { WindowsUnseen(times, labels, l, k); }
      byLabel := byLabel[l := (if l in byLabel then byLabel[l] else []) + [times[k]]];
    }
  }

  /** Overlap-merged speech time per label. */
  method ClusterDurations(times: seq<TimeRange>, labels: seq<nat>) returns (out: map<nat, real>)
    requires |times| == |labels|
    ensures out == DurationMap(times, labels)
  {
    var byLabel := WindowsByLabel(times, labels);
    out := map[];
    var todo := byLabel.Keys;
    while todo != {}
      invariant todo <= byLabel.Keys && out.Keys == byLabel.Keys - todo
      invariant forall l :: l in out ==> Timed(byLabel[l], out[l])
      decreases |todo|
    {
      var l :| l in todo;
      var total := UnionLength(byLabel[l]);
      out := out[l := total];
      todo := todo - {l};
    }
    TimedMap(times, labels, out);
  }

  lemma TimedMap(times: seq<TimeRange>, labels: seq<nat>, out: map<nat, real>)
    requires |times| == |labels| && forall l :: l in out <==> l in labels
    requires forall l :: l in out ==> Timed(Windows(times, labels, l, |labels|), out[l])
    ensures out == DurationMap(times, labels)
  {
    forall l | l in out ensures out[l] == SpeechTime(Windows(times, labels, l, |labels|)) {
      TimedIsUnique(Windows(times, labels, l, |labels|), out[l]);
    }
  }

  /** Every cluster's speech lasts at least `minSecs`. */
  ghost predicate AllLong(times: seq<TimeRange>, labels: seq<nat>, minSecs: real)
    requires |times| == |labels|
  {
    forall i, d :: 0 <= i < |labels| && IsMeasure(Windows(times, labels, labels[i], |labels|), d) ==> d >= minSecs
  }

  /** Every cluster's speech time, as a sweep counts it, is at least `minSecs`. */
  ghost predicate AllCounted(times: seq<TimeRange>, labels: seq<nat>, minSecs: real)
    requires |times| == |labels|
  {
    forall i :: 0 <= i < |labels| ==> SpeechTime(Windows(times, labels, labels[i], |labels|)) >= minSecs
  }

  lemma CountedIsAllPass(times: seq<TimeRange>, labels: seq<nat>, minSecs: real)
    requires |times| == |labels|
    ensures AllCounted(times, labels, minSecs) <==> AllPass(labels, DurationMap(times, labels), minSecs)
  {
  }

  /** What is counted long is long; the converse needs windows that are not loose. */
  lemma CountedIsLong(times: seq<TimeRange>, labels: seq<nat>, minSecs: real)
    requires |times| == |labels|
    ensures AllCounted(times, labels, minSecs) ==> AllLong(times, labels, minSecs)
    ensures AllAnchored(times, labels) && AllLong(times, labels, minSecs) ==> AllCounted(times, labels, minSecs)
  {
    forall i | 0 <= i < |labels|
      ensures var w := Windows(times, labels, labels[i], |labels|);
        && (forall d :: IsMeasure(w, d) ==> d >= SpeechTime(w))
        && (Anchored(w) ==> IsMeasure(w, SpeechTime(w)))
    {
      CountedAtMost(Windows(times, labels, labels[i], |labels|));
    }
  }

  /** A sweep never counts too much, and counts right what is not loose. */
  lemma CountedAtMost(w: seq<TimeRange>)
    ensures forall d :: IsMeasure(w, d) ==> d >= SpeechTime(w)
    ensures Anchored(w) ==> IsMeasure(w, SpeechTime(w))
  {
    ShortfallSign(w);
    SpeechIsTimed(w);
    forall d | IsMeasure(w, d) ensures d >= SpeechTime(w) {
      MeasureUnique(w, w, d, SpeechTime(w) + Shortfall(w));
    }
  }

  /** `out` is a result of pruning `labels` by speech time. */
  ghost predicate DurationPruned(times: seq<TimeRange>, sim: (nat, nat) -> real, labels: seq<nat>, minSecs: real,
                                 out: seq<nat>)
    requires |times| == |labels|
  {
    if minSecs <= 0.0 then out == labels else Dissolved(sim, labels, DurationMap(times, labels), minSecs, out)
  }

  /** Prune by speech time, for any windows. Afterwards every cluster has the speech or
      one is left; the labels are left alone exactly when every cluster is counted long
      enough or there is only one. */
  method PruneSmallClustersByDuration(times: seq<TimeRange>, sim: (nat, nat) -> real, labels: seq<nat>, minSecs: real)
    returns (out: seq<nat>)
    requires |times| == |labels|
    ensures DurationPruned(times, sim, labels, minSecs, out) && |out| == |labels|
    ensures AllLong(times, out, minSecs) || OneCluster(out)
    ensures minSecs > 0.0 ==> KeepsPassing(labels, DurationMap(times, labels), minSecs, out)
    ensures out == labels <==> minSecs <= 0.0 || AllCounted(times, labels, minSecs) || OneCluster(labels)
  {
    if minSecs <= 0.0 {
      out := labels;
    } else {
      var durations := ClusterDurations(times, labels);
      out := PruneBy(sim, labels, durations, minSecs);
    }
    DurationPrunedIsLong(times, sim, labels, minSecs, out);
    DurationsLeftAlone(times, sim, labels, minSecs, out);
  }

  lemma DurationPrunedIsLong(times: seq<TimeRange>, sim: (nat, nat) -> real, labels: seq<nat>, minSecs: real,
                             out: seq<nat>)
    requires |times| == |labels| && DurationPruned(times, sim, labels, minSecs, out)
    ensures |out| == |labels|
    ensures minSecs > 0.0 ==> KeepsPassing(labels, DurationMap(times, labels), minSecs, out)
    ensures AllLong(times, out, minSecs) || OneCluster(out)
  {
    if minSecs <= 0.0 {
      NothingTooShort(times, labels, minSecs);
    } else {
      DissolvedKeeps(sim, labels, DurationMap(times, labels), minSecs, out);
      if !OneCluster(out) { HostsAreLong(times, labels, minSecs, out); }
    }
  }

  lemma DurationsLeftAlone(times: seq<TimeRange>, sim: (nat, nat) -> real, labels: seq<nat>, minSecs: real,
                           out: seq<nat>)
    requires |times| == |labels| && DurationPruned(times, sim, labels, minSecs, out)
    ensures out == labels <==> minSecs <= 0.0 || AllCounted(times, labels, minSecs) || OneCluster(labels)
  {
    if minSecs > 0.0 {
      LeftAloneExactlyWhen(sim, labels, DurationMap(times, labels), minSecs, out);
      CountedIsAllPass(times, labels, minSecs);
    }
  }

  /** Clusters that long ones went into whole are long. */
  lemma HostsAreLong(times: seq<TimeRange>, labels: seq<nat>, minSecs: real, out: seq<nat>)
    requires |times| == |labels| == |out|
    requires forall i :: 0 <= i < |labels| ==> HostPasses(labels, DurationMap(times, labels), minSecs, out, i)
    ensures AllLong(times, out, minSecs)
  {
    forall i, d | 0 <= i < |labels| && IsMeasure(Windows(times, out, out[i], |labels|), d) ensures d >= minSecs {
      assert HostPasses(labels, DurationMap(times, labels), minSecs, out, i);
      var j :| 0 <= j < |labels| && Hosts(labels, out, j, i) && DurationMap(times, labels)[labels[j]] >= minSecs;
      HostIsLonger(times, labels, out, j, i, d);
    }
  }

  lemma HostIsLonger(times: seq<TimeRange>, labels: seq<nat>, out: seq<nat>, j: nat, i: nat, d: real)
    requires |times| == |labels| && Hosts(labels, out, j, i)
    requires IsMeasure(Windows(times, out, out[i], |labels|), d)
    ensures d >= SpeechTime(Windows(times, labels, labels[j], |labels|))
  {
    var w := Windows(times, labels, labels[j], |labels|);
    HostSpeech(times, labels, out, j, i);
    ShortfallSign(w);
    SpeechIsTimed(w);
    MeasureMonotone(w, Windows(times, out, out[i], |labels|), SpeechTime(w) + Shortfall(w), d);
  }

  lemma NothingTooShort(times: seq<TimeRange>, labels: seq<nat>, minSecs: real)
    requires |times| == |labels| && minSecs <= 0.0
    ensures AllLong(times, labels, minSecs)
  {
    forall i, d | 0 <= i < |labels| && IsMeasure(Windows(times, labels, labels[i], |labels|), d) ensures d >= 0.0 {
      var w := Windows(times, labels, labels[i], |labels|);
      var m :| Separated(m) && Within(m, w) && Within(w, m) && d == Length(m);
      LengthNonNegative(m);
    }
  }
}

/** Pruning by speech time twice: exactly when the second time changes nothing. Windows that
    run backwards and join a cluster may take speech time from it. */
module PruneTwice {
  import opened Measure
  import opened Assignment
  import opened Pruning
  import opened Sorting
  import opened Wrappers

  // ----- one result

  /** The second time changes nothing exactly when every cluster of the first result is
      counted long enough, or there is only one; and so always when windows run forwards. */
  lemma PruneTwiceByDuration(times: seq<TimeRange>, sim: (nat, nat) -> real, sim': (nat, nat) -> real,
                             labels: seq<nat>, minSecs: real, out: seq<nat>, again: seq<nat>)
    requires |times| == |labels| == |out|
    requires DurationPruned(times, sim, labels, minSecs, out) && DurationPruned(times, sim', out, minSecs, again)
    ensures again == out <==> minSecs <= 0.0 || AllCounted(times, out, minSecs) || OneCluster(out)
    ensures Forward(times) ==> again == out
  {
    DurationsLeftAlone(times, sim', out, minSecs, again);
    if Forward(times) {
      DurationPrunedIsLong(times, sim, labels, minSecs, out);
      ForwardIsAllAnchored(times, out);
      CountedIsLong(times, out, minSecs);
    }
  }

  // ----- the windows of a label, by their positions

  function Positions(labels: seq<nat>, l: nat, k: nat): (p: seq<nat>)
    requires k <= |labels|
    ensures forall x :: 0 <= x < |p| ==> p[x] < k && labels[p[x]] == l
  {
    if k == 0 then [] else Positions(labels, l, k - 1) + if labels[k - 1] == l then [k - 1] else []
  }

  ghost predicate Ascending(p: seq<nat>) {
    forall x, y :: 0 <= x < y < |p| ==> p[x] < p[y]
  }

  lemma {:induction false} PositionsAscend(labels: seq<nat>, l: nat, k: nat)
    requires k <= |labels|
    ensures Ascending(Positions(labels, l, k))
  {
    if k > 0 {
      var p, q := Positions(labels, l, k - 1), Positions(labels, l, k);
      PositionsAscend(labels, l, k - 1);
      forall x, y | 0 <= x < y < |q| ensures q[x] < q[y] {
        assert q[x] == p[x] && (y < |p| ==> q[y] == p[y]);
      }
    }
  }

  lemma {:induction false} PositionsCover(labels: seq<nat>, l: nat, k: nat, i: nat)
    requires i < k <= |labels| && labels[i] == l
    ensures i in Positions(labels, l, k)
  {
    if i < k - 1 { PositionsCover(labels, l, k - 1, i); }
  }

  lemma {:induction false} WindowsAtPositions(times: seq<TimeRange>, labels: seq<nat>, l: nat, k: nat)
    requires k <= |labels| == |times|
    ensures var w, p := Windows(times, labels, l, k), Positions(labels, l, k);
      |w| == |p| && forall x :: 0 <= x < |w| ==> w[x] == times[p[x]]
  {
    if k > 0 { WindowsAtPositions(times, labels, l, k - 1); }
  }

  /** Window `i` ends before it starts, and no window of label `l` that comes before it
      reaches its start. */
  ghost predicate LooseIn(times: seq<TimeRange>, labels: seq<nat>, l: nat, i: nat)
    requires i < |times| == |labels|
  {
    && times[i].end < times[i].start
    && forall j: nat :: j < |times| && labels[j] == l && Earlier(times, j, i) ==> times[j].end < times[i].start
  }

  ghost function ChargesIn(times: seq<TimeRange>, labels: seq<nat>, l: nat): (c: seq<real>)
    requires |times| == |labels|
    ensures |c| == |times|
    ensures forall i :: 0 <= i < |times| ==>
      c[i] == if labels[i] == l && LooseIn(times, labels, l, i) then times[i].start - times[i].end else 0.0
  {
    seq(|times|, i requires 0 <= i < |times| =>
      if labels[i] == l && LooseIn(times, labels, l, i) then times[i].start - times[i].end else 0.0)
  }

  lemma LooseAmong(times: seq<TimeRange>, labels: seq<nat>, l: nat, x: nat)
    requires |times| == |labels| && x < |Windows(times, labels, l, |labels|)| == |Positions(labels, l, |labels|)|
    ensures Loose(Windows(times, labels, l, |labels|), x) <==>
      LooseIn(times, labels, l, Positions(labels, l, |labels|)[x])
  {
    var w, p := Windows(times, labels, l, |labels|), Positions(labels, l, |labels|);
    WindowsAtPositions(times, labels, l, |labels|);
    PositionsAscend(labels, l, |labels|);
    if Loose(w, x) {
      forall j: nat | j < |times| && labels[j] == l && Earlier(times, j, p[x])
        ensures times[j].end < times[p[x]].start
      {
        PositionsCover(labels, l, |labels|, j);
        var y: nat :| y < |p| && p[y] == j;
        assert Earlier(w, y, x);
      }
    }
    if LooseIn(times, labels, l, p[x]) {
      forall y: nat | y < |w| && Earlier(w, y, x) ensures w[y].end < w[x].start {
        assert Earlier(times, p[y], p[x]);
      }
    }
  }

  lemma {:induction false} SumAtPositions(c: seq<real>, labels: seq<nat>, l: nat, k: nat)
    requires k <= |labels| == |c| && forall i :: 0 <= i < k && labels[i] != l ==> c[i] == 0.0
    ensures SumAt(c, Positions(labels, l, k)) == Sum(c[..k])
  {
    if k > 0 {
      SumAtPositions(c, labels, l, k - 1);
      SumUpTo(c, k);
      SumAtStep(c, labels, l, k, Positions(labels, l, k - 1), Positions(labels, l, k));
    }
  }

  lemma SumAtStep(c: seq<real>, labels: seq<nat>, l: nat, k: nat, p: seq<nat>, q: seq<nat>)
    requires 0 < k <= |labels| == |c| && (labels[k - 1] != l ==> c[k - 1] == 0.0)
    requires q == p + if labels[k - 1] == l then [k - 1] else []
    requires forall x :: 0 <= x < |p| ==> p[x] < |c|
    ensures forall x :: 0 <= x < |q| ==> q[x] < |c|
    ensures SumAt(c, q) == SumAt(c, p) + c[k - 1]
  {
    if labels[k - 1] == l {
      SumAtMore(c, p, k - 1);
    } else {
      assert q == p;
    }
  }

  lemma SumUpTo(c: seq<real>, k: nat)
    requires 0 < k <= |c|
    ensures Sum(c[..k]) == Sum(c[..k - 1]) + c[k - 1]
  {
    assert c[..k][..k - 1] == c[..k - 1];
  }

  lemma SumAtMore(c: seq<real>, p: seq<nat>, x: nat)
    requires x < |c| && forall i :: 0 <= i < |p| ==> p[i] < |c|
    ensures SumAt(c, p + [x]) == SumAt(c, p) + c[x]
  {
    assert (p + [x])[..|p|] == p;
  }

  lemma ShortfallIn(times: seq<TimeRange>, labels: seq<nat>, l: nat)
    requires |times| == |labels|
    ensures Shortfall(Windows(times, labels, l, |labels|)) == Sum(ChargesIn(times, labels, l))
  {
    var w, p, c := Windows(times, labels, l, |labels|), Positions(labels, l, |labels|), ChargesIn(times, labels, l);
    WindowsAtPositions(times, labels, l, |labels|);
    forall x | 0 <= x < |p| ensures Charges(w)[x] == c[p[x]] {
      LooseAmong(times, labels, l, x);
    }
    SumPicked(Charges(w), c, p);
    SumAtPositions(c, labels, l, |labels|);
    assert c[..|labels|] == c;
  }

  predicate Backward(t: TimeRange) {
    t.end < t.start
  }

  /** Label `x` has every forward window that `y` has, and no backward one that `y` has not. */
  ghost predicate Richer(times: seq<TimeRange>, a: seq<nat>, x: nat, b: seq<nat>, y: nat) {
    && |a| == |b| == |times|
    && (forall i :: 0 <= i < |times| && b[i] == y && !Backward(times[i]) ==> a[i] == x)
    && (forall i :: 0 <= i < |times| && a[i] == x && Backward(times[i]) ==> b[i] == y)
  }

  /** More forward windows and fewer backward ones: no less speech time. */
  lemma RicherIsLonger(times: seq<TimeRange>, a: seq<nat>, x: nat, b: seq<nat>, y: nat)
    requires Richer(times, a, x, b, y)
    ensures SpeechTime(Windows(times, b, y, |b|)) <= SpeechTime(Windows(times, a, x, |a|))
  {
    var v, w := Windows(times, a, x, |a|), Windows(times, b, y, |b|);
    forall t: real | Inside(t, w) ensures Inside(t, v) {
      InsideWindows(times, b, y, |b|, t);
      InsideWindows(times, a, x, |a|, t);
    }
    SpeechIsTimed(w);
    SpeechIsTimed(v);
    MeasureMonotone(w, v, SpeechTime(w) + Shortfall(w), SpeechTime(v) + Shortfall(v));
    RicherFallsLess(times, a, x, b, y);
  }

  lemma RicherFallsLess(times: seq<TimeRange>, a: seq<nat>, x: nat, b: seq<nat>, y: nat)
    requires Richer(times, a, x, b, y)
    ensures Shortfall(Windows(times, a, x, |a|)) <= Shortfall(Windows(times, b, y, |b|))
  {
    ShortfallIn(times, a, x);
    ShortfallIn(times, b, y);
    var c, d := ChargesIn(times, a, x), ChargesIn(times, b, y);
    forall i | 0 <= i < |times| ensures c[i] <= d[i] {
      if a[i] == x && LooseIn(times, a, x, i) {
        forall j: nat | j < |times| && b[j] == y && Earlier(times, j, i) ensures times[j].end < times[i].start {
          assert !Backward(times[j]) ==> a[j] == x;
        }
      }
    }
    SumAtMost(c, d);
  }

  lemma {:induction false} SameWindows(times: seq<TimeRange>, a: seq<nat>, x: nat, b: seq<nat>, y: nat, k: nat)
    requires k <= |a| == |b| == |times| && forall i :: 0 <= i < k ==> (a[i] == x <==> b[i] == y)
    ensures Windows(times, a, x, k) == Windows(times, b, y, k)
  {
    if k > 0 { SameWindows(times, a, x, b, y, k - 1); }
  }

  // ----- every result

  /** The labels whose speech time passes. */
  ghost function Passing(times: seq<TimeRange>, labels: seq<nat>, minSecs: real): (s: set<nat>)
    requires |times| == |labels|
    ensures var metrics := DurationMap(times, labels);
      s <= metrics.Keys && forall l :: l in metrics ==> (l in s <==> metrics[l] >= minSecs)
  {
    set l | l in labels && SpeechTime(Windows(times, labels, l, |labels|)) >= minSecs
  }

  /** Label `l` and, with it, every backward window whose cluster is in no set `s`. */
  function Gathered(times: seq<TimeRange>, labels: seq<nat>, s: set<nat>, l: nat): (r: seq<nat>)
    requires |times| == |labels|
    ensures |r| == |labels| && forall i :: 0 <= i < |labels| ==>
      (r[i] == l <==> labels[i] == l || (labels[i] !in s && Backward(times[i])))
  {
    seq(|labels|, i requires 0 <= i < |labels| =>
      if labels[i] == l || (labels[i] !in s && Backward(times[i])) then l else l + 1)
  }

  /** At most one cluster passes, or each that does would still pass if all backward windows
      of the dissolved clusters joined it. */
  ghost predicate Robust(times: seq<TimeRange>, labels: seq<nat>, minSecs: real)
    requires |times| == |labels|
  {
    var s := Passing(times, labels, minSecs);
    minSecs <= 0.0 || |s| <= 1 ||
      forall l :: l in s ==> SpeechTime(Windows(times, Gathered(times, labels, s, l), l, |labels|)) >= minSecs
  }

  /** Whatever the similarities, pruning a second time changes nothing. */
  ghost predicate Stable(times: seq<TimeRange>, labels: seq<nat>, minSecs: real)
    requires |times| == |labels|
  {
    forall sim, sim', out, again | |out| == |labels| && DurationPruned(times, sim, labels, minSecs, out) ::
      DurationPruned(times, sim', out, minSecs, again) ==> again == out
  }

  lemma OnlyOneLeft(labels: seq<nat>, metrics: map<nat, real>, keep: real, s: set<nat>, sim: (nat, nat) -> real,
                    out: seq<nat>)
    requires Keyed(labels, metrics) && Finished(sim, labels, s, |metrics|, out) && s <= metrics.Keys && |s| == 1
    ensures OneCluster(out)
  {
    var b :| b in s;
    assert s == {b} by {
      assert |s - {b}| == 0;
    }
    if |metrics| == 1 {
      assert |metrics.Keys - {b}| == 0;
      assert metrics.Keys == {b};
      forall i | 0 <= i < |labels| ensures labels[i] == b {
        assert labels[i] in metrics.Keys;
      }
    } else {
      OneSurvivor(labels, b, out);
    }
  }

  /** Each cluster of the result is as rich as its host with the backward windows gathered. */
  lemma HostIsRicher(times: seq<TimeRange>, labels: seq<nat>, s: set<nat>, out: seq<nat>, i: nat) returns (l: nat)
    requires |times| == |labels| && Pruned(labels, s, out) && i < |labels|
    ensures l in s && Richer(times, out, out[i], Gathered(times, labels, s, l), l)
  {
    var j := ClusterHasHost(labels, s, out, i);
    l := labels[j];
  }

  lemma HostsAreCounted(times: seq<TimeRange>, labels: seq<nat>, minSecs: real, s: set<nat>, out: seq<nat>)
    requires |times| == |labels| && Pruned(labels, s, out)
    requires forall l :: l in s ==> SpeechTime(Windows(times, Gathered(times, labels, s, l), l, |labels|)) >= minSecs
    ensures AllCounted(times, out, minSecs)
  {
    forall i | 0 <= i < |out| ensures SpeechTime(Windows(times, out, out[i], |out|)) >= minSecs {
      var l := HostIsRicher(times, labels, s, out, i);
      RicherIsLonger(times, out, out[i], Gathered(times, labels, s, l), l);
    }
  }

  lemma RobustIsCounted(times: seq<TimeRange>, sim: (nat, nat) -> real, labels: seq<nat>, minSecs: real, out: seq<nat>)
    requires |times| == |labels| == |out| && DurationPruned(times, sim, labels, minSecs, out)
    requires minSecs > 0.0 && Robust(times, labels, minSecs)
    ensures AllCounted(times, out, minSecs) || OneCluster(out)
  {
    var metrics := DurationMap(times, labels);
    var s: set<nat> :| Survivors(metrics, minSecs, s) && Finished(sim, labels, s, |metrics|, out);
    SurvivorsArePassing(times, labels, minSecs, s);
    if |s| == 1 {
      OnlyOneLeft(labels, metrics, minSecs, s, sim, out);
    } else if s != {} && |s| == |metrics| {
      AllSurvived(labels, metrics, minSecs, s);
      CountedIsAllPass(times, labels, minSecs);
    } else if s != {} {
      HostsAreCounted(times, labels, minSecs, s, out);
    }
  }

  lemma SurvivorsArePassing(times: seq<TimeRange>, labels: seq<nat>, minSecs: real, s: set<nat>)
    requires |times| == |labels| && Survivors(DurationMap(times, labels), minSecs, s)
    ensures s <= DurationMap(times, labels).Keys && (s == {} ==> labels == [])
    ensures |s| > 1 ==> s == Passing(times, labels, minSecs)
  {
    var metrics, p := DurationMap(times, labels), Passing(times, labels, minSecs);
    SomeSurvive(metrics, minSecs, s);
    assert labels != [] ==> labels[0] in metrics;
    if |s| > 1 { SameSet(metrics.Keys, s, p); }
  }

  lemma SameSet(all: set<nat>, s: set<nat>, p: set<nat>)
    requires s <= all && p <= all && forall l :: l in all ==> (l in s <==> l in p)
    ensures s == p
  {
  }

  lemma SomeSurvive(metrics: map<nat, real>, keep: real, s: set<nat>)
    requires Survivors(metrics, keep, s)
    ensures s == {} ==> metrics == map[]
    ensures |s| > 1 ==> forall l :: l in metrics ==> (l in s <==> metrics[l] >= keep)
  {
  }

  // ----- results for chosen homes

  /** Where a sorted list has `x`. */
  ghost function At(ids: seq<nat>, x: nat): (k: nat)
    requires x in ids
    ensures k < |ids| && ids[k] == x
  {
    var k: nat :| k < |ids| && ids[k] == x;
    k
  }

  /** Each member's home is a survivor: its own cluster if that survives. */
  ghost predicate Homes(labels: seq<nat>, s: set<nat>, home: seq<nat>) {
    |home| == |labels| && forall i :: 0 <= i < |labels| ==> home[i] in s && (labels[i] in s ==> home[i] == labels[i])
  }

  /** Similarities may send the members to any homes. */
  lemma PruneTo(labels: seq<nat>, s: set<nat>, home: seq<nat>) returns (sim: (nat, nat) -> real, out: seq<nat>)
    requires Homes(labels, s, home) && forall l :: l in s ==> Occurs(labels, l)
    ensures Pruned(labels, s, out) && Joined(sim, labels, s, out)
    ensures forall i, j :: 0 <= i < |labels| && 0 <= j < |labels| ==> (out[i] == out[j] <==> home[i] == home[j])
  {
    var ids := ListExists(s);
    ListsSize(ids, s);
    out := seq(|labels|, i requires 0 <= i < |labels| => At(ids, home[i]));
    var slots := out;
    sim := (i: nat, k: nat) => if i < |slots| && k == slots[i] then 1.0 else 0.0;
    forall k: nat | k < |s| ensures Hosted(labels, s, out, k) {
      assert ids[k] in s && Occurs(labels, ids[k]);
      var j :| 0 <= j < |labels| && labels[j] == ids[k];
      assert ids[out[j]] == ids[k];
    }
  }

  lemma {:induction false} LargestExists(metrics: map<nat, real>, keys: set<nat>) returns (b: nat)
    requires keys <= metrics.Keys && keys != {}
    ensures b in keys
    ensures forall l :: l in keys && l != b ==> metrics[b] > metrics[l] || (metrics[b] == metrics[l] && b < l)
    decreases |keys|
  {
    var y :| y in keys;
    b := y;
    if keys != {y} {
      var c := LargestExists(metrics, keys - {y});
      b := if metrics[c] > metrics[y] || (metrics[c] == metrics[y] && c < y) then c else y;
      assert forall l :: l in keys ==> l == y || l in keys - {y};
    }
  }

  lemma SurvivorsExist(metrics: map<nat, real>, keep: real) returns (s: set<nat>)
    ensures Survivors(metrics, keep, s)
  {
    s := set l | l in metrics && metrics[l] >= keep;
    if (forall l :: l in metrics ==> metrics[l] < keep) && metrics != map[] {
      var b := LargestExists(metrics, metrics.Keys);
      s := {b};
    }
  }

  lemma DissolvedExists(labels: seq<nat>, metrics: map<nat, real>, keep: real)
    returns (sim: (nat, nat) -> real, out: seq<nat>)
    requires Keyed(labels, metrics)
    ensures Dissolved(sim, labels, metrics, keep, out)
  {
    sim, out := (i, k) => 0.0, labels;
    var s := SurvivorsExist(metrics, keep);
    if s != {} && |s| != |metrics| {
      var b :| b in s;
      var home := seq(|labels|, i requires 0 <= i < |labels| => if labels[i] in s then labels[i] else b);
      sim, out := PruneTo(labels, s, home);
    }
    assert Finished(sim, labels, s, |metrics|, out);
  }

  lemma PruneExists(times: seq<TimeRange>, labels: seq<nat>, minSecs: real)
    returns (sim: (nat, nat) -> real, out: seq<nat>)
    requires |times| == |labels|
    ensures DurationPruned(times, sim, labels, minSecs, out)
  {
    if minSecs <= 0.0 {
      sim, out := (i, k) => 0.0, labels;
    } else {
      sim, out := DissolvedExists(labels, DurationMap(times, labels), minSecs);
    }
  }

  // ----- exactly when

  /** The members of other clusters may be sent so that `l` gets the backward windows. */
  lemma SendBackward(times: seq<TimeRange>, labels: seq<nat>, s: set<nat>, l: nat, other: nat)
    returns (sim: (nat, nat) -> real, out: seq<nat>, i: nat, j: nat)
    requires |times| == |labels| && l in s && other in s && l != other
    requires forall x :: x in s ==> Occurs(labels, x)
    ensures Pruned(labels, s, out) && Joined(sim, labels, s, out)
    ensures i < |out| && j < |out| && out[i] != out[j]
    ensures
      Windows(times, out, out[i], |labels|) == Windows(times, Gathered(times, labels, s, l), l, |labels|)
  {
    var home := seq(|labels|, i requires 0 <= i < |labels| =>
      if labels[i] in s then labels[i] else if Backward(times[i]) then l else other);
    sim, out := PruneTo(labels, s, home);
    assert Occurs(labels, l) && Occurs(labels, other);
    i :| 0 <= i < |labels| && labels[i] == l;
    j :| 0 <= j < |labels| && labels[j] == other;
    SameWindows(times, out, out[i], Gathered(times, labels, s, l), l, |labels|);
  }

  lemma PassingOccur(times: seq<TimeRange>, labels: seq<nat>, minSecs: real)
    requires |times| == |labels|
    ensures forall x :: x in Passing(times, labels, minSecs) ==> Occurs(labels, x)
  {
  }

  /** If every cluster is in the set there is nothing to gather. */
  lemma NothingToGather(times: seq<TimeRange>, labels: seq<nat>, s: set<nat>, l: nat)
    requires |times| == |labels| && forall i :: 0 <= i < |labels| ==> labels[i] in s
    ensures Windows(times, Gathered(times, labels, s, l), l, |labels|) == Windows(times, labels, l, |labels|)
  {
    SameWindows(times, Gathered(times, labels, s, l), l, labels, l, |labels|);
  }

  /** Some cluster would fail with the backward windows gathered: then it is sent them. */
  lemma Spoiled(times: seq<TimeRange>, labels: seq<nat>, minSecs: real, s: set<nat>, l: nat)
    returns (sim: (nat, nat) -> real, out: seq<nat>, i: nat, j: nat)
    requires |times| == |labels| && minSecs > 0.0 && s == Passing(times, labels, minSecs)
    requires l in s && |s| > 1 && SpeechTime(Windows(times, Gathered(times, labels, s, l), l, |labels|)) < minSecs
    ensures |out| == |labels| && DurationPruned(times, sim, labels, minSecs, out)
    ensures i < |out| && SpeechTime(Windows(times, out, out[i], |out|)) < minSecs
    ensures j < |out| && out[i] != out[j]
  {
    var other := Missing({l}, s);
    PassingOccur(times, labels, minSecs);
    sim, out, i, j := SendBackward(times, labels, s, l, other);
    SomeFail(times, labels, minSecs, s, l);
    PassingIsPruned(times, sim, labels, minSecs, s, out);
  }

  lemma PassingIsPruned(times: seq<TimeRange>, sim: (nat, nat) -> real, labels: seq<nat>, minSecs: real, s: set<nat>,
                        out: seq<nat>)
    requires |times| == |labels| && minSecs > 0.0 && s == Passing(times, labels, minSecs) != {}
    requires Pruned(labels, s, out) && Joined(sim, labels, s, out) && |s| != |DurationMap(times, labels)|
    ensures DurationPruned(times, sim, labels, minSecs, out)
  {
    var metrics := DurationMap(times, labels);
    assert Survivors(metrics, minSecs, s);
    assert Finished(sim, labels, s, |metrics|, out);
  }

  lemma SomeFail(times: seq<TimeRange>, labels: seq<nat>, minSecs: real, s: set<nat>, l: nat)
    requires |times| == |labels| && s == Passing(times, labels, minSecs) && l in s
    requires SpeechTime(Windows(times, Gathered(times, labels, s, l), l, |labels|)) < minSecs
    ensures |s| != |DurationMap(times, labels)|
  {
    if forall i :: 0 <= i < |labels| ==> labels[i] in s {
      NothingToGather(times, labels, s, l);
      assert false;
    }
    var i :| 0 <= i < |labels| && labels[i] !in s;
    Fewer(labels, DurationMap(times, labels), s, i);
  }

  lemma Fewer(labels: seq<nat>, metrics: map<nat, real>, s: set<nat>, i: nat)
    requires Keyed(labels, metrics) && i < |labels| && labels[i] !in s && forall l :: l in s ==> l in labels
    ensures |s| != |metrics|
  {
    assert s <= metrics.Keys - {labels[i]};
    SubsetSize(s, metrics.Keys - {labels[i]});
  }

  /** Pruning twice by speech time is pruning once, whatever the similarities, exactly when
      no passing cluster can be brought under the bar by the backward windows of the others. */
  lemma StableExactlyWhen(times: seq<TimeRange>, labels: seq<nat>, minSecs: real)
    requires |times| == |labels|
    ensures Stable(times, labels, minSecs) <==> Robust(times, labels, minSecs)
  {
    var s := Passing(times, labels, minSecs);
    if Robust(times, labels, minSecs) {
      forall sim, sim', out, again | |out| == |labels| && DurationPruned(times, sim, labels, minSecs, out)
        && DurationPruned(times, sim', out, minSecs, again)
        ensures again == out
      {
        if minSecs > 0.0 { RobustIsCounted(times, sim, labels, minSecs, out); }
        PruneTwiceByDuration(times, sim, sim', labels, minSecs, out, again);
      }
    } else {
      var l :| l in s && SpeechTime(Windows(times, Gathered(times, labels, s, l), l, |labels|)) < minSecs;
      var sim, out, i, j := Spoiled(times, labels, minSecs, s, l);
      var sim', again := PruneExists(times, out, minSecs);
      PruneTwiceByDuration(times, sim, sim', labels, minSecs, out, again);
    }
  }

  // ----- a result that is not

  lemma OneWindow(t: TimeRange)
    ensures SpeechTime([t]) == t.end - t.start
  {
    var w := [t];
    var c := Charges(w);
    assert Sum(c) == c[0] by {
      assert c[..0] == [] && Sum(c) == Sum(c[..0]) + c[0];
    }
    if Backward(t) {
      assert Loose(w, 0);
      Covers(w, [], 0.0);
    } else {
      assert Separated(w) && Length(w) == t.end - t.start + Length(w[1..]);
      Covers(w, w, t.end - t.start);
    }
    TimedIsUnique(w, t.end - t.start);
  }

  /** A backward window after a forward one that does not reach it. */
  lemma TwoWindows(a: TimeRange, b: TimeRange)
    requires a.start <= a.end < b.start && b.end < b.start
    ensures SpeechTime([a, b]) == (a.end - a.start) - (b.start - b.end)
  {
    var w, m := [a, b], [a];
    var c := Charges(w);
    assert !Loose(w, 0) && Loose(w, 1);
    SumUpTo(c, 1);
    SumUpTo(c, 2);
    assert c[..0] == [] && c[..2] == c;
    assert Separated(m) && Length(m) == a.end - a.start + Length(m[1..]);
    forall x: real ensures Inside(x, w) <==> Inside(x, m) {
      LastInside(x, m, b);
      assert m + [b] == w;
    }
    Covers(w, m, a.end - a.start);
    TimedIsUnique(w, (a.end - a.start) - (b.start - b.end));
  }

  const TIMES := [TimeRange(0.0, 2.0), TimeRange(0.0, 3.0), TimeRange(5.0, 1.0)]

  lemma TimesOfThree()
    ensures SpeechTime(Windows(TIMES, [0, 1, 2], 0, 3)) == 2.0
    ensures SpeechTime(Windows(TIMES, [0, 1, 2], 1, 3)) == 3.0
    ensures SpeechTime(Windows(TIMES, [0, 1, 2], 2, 3)) == -4.0
  {
    assert Windows(TIMES, [0, 1, 2], 0, 3) == [TIMES[0]];
    assert Windows(TIMES, [0, 1, 2], 1, 3) == [TIMES[1]];
    assert Windows(TIMES, [0, 1, 2], 2, 3) == [TIMES[2]];
    OneWindow(TIMES[0]);
    OneWindow(TIMES[1]);
    OneWindow(TIMES[2]);
  }

  lemma TimesOfTwo()
    ensures SpeechTime(Windows(TIMES, [0, 1, 0], 0, 3)) == -2.0
  {
    assert Windows(TIMES, [0, 1, 0], 0, 3) == [TIMES[0], TIMES[2]];
    TwoWindows(TIMES[0], TIMES[2]);
  }

  /** Three windows pruned twice: the last, which runs backwards, joins cluster 0 and takes
      its speech time below the bar, so the second time cluster 0 is dissolved. */
  method SecondPruneMoves() returns (once: seq<nat>, twice: seq<nat>)
    ensures once == [0, 1, 0] && twice != once
  {
    var labels: seq<nat> := [0, 1, 2];
    var sim := (i: nat, k: nat) => if k == 0 then 1.0 else 0.0;
    once := PruneSmallClustersByDuration(TIMES, sim, labels, 1.0);
    TimesOfThree();
    FirstResult(sim, once);
    twice := PruneSmallClustersByDuration(TIMES, sim, once, 1.0);
    TimesOfTwo();
    assert once[0] != once[1];
  }

  lemma KeysOfThree(metrics: map<nat, real>)
    requires Keyed([0, 1, 2], metrics)
    ensures metrics.Keys == {0, 1, 2} && |metrics| == 3
  {
    var labels: seq<nat> := [0, 1, 2];
    assert labels[0] in metrics && labels[1] in metrics && labels[2] in metrics;
    forall l | l in metrics ensures l < 3 {
      assert Occurs(labels, l);
    }
    assert metrics.Keys == {0, 1, 2};
    assert |metrics| == |metrics.Keys|;
  }

  lemma TwoOfThree(metrics: map<nat, real>, s: set<nat>)
    requires metrics.Keys == {0, 1, 2} && metrics[0] == 2.0 && metrics[1] == 3.0 && metrics[2] == -4.0
    requires Survivors(metrics, 1.0, s)
    ensures s == {0, 1} && |s| == 2
  {
    assert 0 in metrics && 1 in metrics && 2 in metrics;
    assert 0 in s && 1 in s && 2 !in s;
    assert s == {0, 1};
  }

  lemma FirstResult(sim: (nat, nat) -> real, out: seq<nat>)
    requires DurationPruned(TIMES, sim, [0, 1, 2], 1.0, out) && sim(2, 0) > sim(2, 1)
    ensures out == [0, 1, 0]
  {
    var labels: seq<nat> := [0, 1, 2];
    var metrics := DurationMap(TIMES, labels);
    TimesOfThree();
    KeysOfThree(metrics);
    var s: set<nat> :| Survivors(metrics, 1.0, s) && Finished(sim, labels, s, |metrics|, out);
    TwoOfThree(metrics, s);
    JoinedTwo(sim, s, out);
  }

  lemma JoinedTwo(sim: (nat, nat) -> real, s: set<nat>, out: seq<nat>)
    requires s == {0, 1} && Pruned([0, 1, 2], s, out) && Joined(sim, [0, 1, 2], s, out) && sim(2, 0) > sim(2, 1)
    ensures out == [0, 1, 0]
  {
    var labels: seq<nat> := [0, 1, 2];
    assert |s| == 2 && labels[0] == 0 && labels[1] == 1 && labels[2] == 2;
    assert out[0] < out[1];
    assert MostSimilar(sim, 2, 2, out[2]);
  }
}

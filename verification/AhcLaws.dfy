/** What every round of the merge loop keeps, and what holds when it stops. */
module AhcLaws {
  import opened Ahc
  import ClusterIds
  import opened Wrappers
  import opened Sorting

  // ----- members

  /** Summed durations of the members of root `r` among the first `k` embeddings. */
  function Speech(labels: seq<nat>, durs: seq<real>, r: nat, k: nat): real
    requires k <= |labels| && k <= |durs|
  {
    if k == 0 then 0.0 else Speech(labels, durs, r, k - 1) + if labels[k - 1] == r then durs[k - 1] else 0.0
  }

  lemma {:induction false} RelabelMembers(labels: seq<nat>, durs: seq<real>, i: nat, j: nat, r: nat, k: nat)
    requires k <= |labels| && k <= |durs| && i != j
    ensures ClusterIds.Count(Relabel(labels, j, i), r, k) ==
      if r == i then ClusterIds.Count(labels, i, k) + ClusterIds.Count(labels, j, k)
      else if r == j then 0
      else ClusterIds.Count(labels, r, k)
    ensures Speech(Relabel(labels, j, i), durs, r, k) ==
      if r == i then Speech(labels, durs, i, k) + Speech(labels, durs, j, k)
      else if r == j then 0.0 else Speech(labels, durs, r, k)
  {
    if k > 0 { RelabelMembers(labels, durs, i, j, r, k - 1); }
  }

  // ----- the invariant of a round

  /** Every label names an active root, which is its cluster's smallest member. */
  ghost predicate Rooted(c: Clusters, n: nat) {
    && |c.labels| == |c.active| == n
    && (forall k :: 0 <= k < n ==> c.labels[k] <= k && c.active[c.labels[k]])
    && (forall r :: 0 <= r < n ==> (c.active[r] <==> c.labels[r] == r))
  }

  /** Sizes, durations and dominant members belong to their clusters. */
  ghost predicate Accounted(c: Clusters, n: nat, durs: seq<real>) {
    && |c.labels| == |c.active| == |c.sizes| == |c.dur| == |c.dominant| == |durs| == n
    && forall r :: 0 <= r < n && c.active[r] ==>
        && c.sizes[r] == ClusterIds.Count(c.labels, r, n)
        && c.dur[r] == Speech(c.labels, durs, r, n)
        && c.dominant[r] < n && c.labels[c.dominant[r]] == r
  }

  lemma {:induction false} SingletonMembers(n: nat, durs: seq<real>, r: nat, k: nat)
    requires k <= n == |durs|
    ensures ClusterIds.Count(UpTo(n), r, k) == if r < k then 1 else 0
    ensures Speech(UpTo(n), durs, r, k) == if r < k then durs[r] else 0.0
  {
    if k > 0 { SingletonMembers(n, durs, r, k - 1); }
  }

  lemma SingletonsAreSound(embeddings: seq<Vec>, durs: seq<real>)
    requires |durs| == |embeddings|
    ensures Rooted(Singletons(embeddings, durs), |embeddings|)
    ensures Accounted(Singletons(embeddings, durs), |embeddings|, durs)
  {
    var n := |embeddings|;
    forall r | 0 <= r < n ensures ClusterIds.Count(UpTo(n), r, n) == 1 && Speech(UpTo(n), durs, r, n) == durs[r] {
      SingletonMembers(n, durs, r, n);
    }
  }

  lemma MergeKeepsRoots(cfg: Config, c: Clusters, n: nat, dim: nat, i: nat, j: nat)
    requires cfg.Valid() && c.Shaped(n, dim) && Rooted(c, n) && Mergeable(cfg, c, n, dim, i, j)
    ensures Rooted(Merge(cfg, c, i, j), n)
  {
  }

  lemma MergeKeepsAccounts(cfg: Config, c: Clusters, n: nat, dim: nat, durs: seq<real>, i: nat, j: nat)
    requires cfg.Valid() && c.Shaped(n, dim) && Rooted(c, n) && Accounted(c, n, durs) && Mergeable(cfg, c, n, dim, i, j)
    ensures Accounted(Merge(cfg, c, i, j), n, durs)
  {
    var m := Merge(cfg, c, i, j);
    forall r | 0 <= r < n && m.active[r]
      ensures m.sizes[r] == ClusterIds.Count(m.labels, r, n)
      ensures m.dur[r] == Speech(m.labels, durs, r, n)
      ensures m.dominant[r] < n && m.labels[m.dominant[r]] == r
    {
      RelabelMembers(c.labels, durs, i, j, r, n);
    }
  }

  // ----- established clusters

  predicate Established(stop: AscStop, size: nat, dur: real) {
    match stop
    case Off => false
    case MinMembers(m) => m > 0 && size >= m
    case MinSecs(s) => s > 0.0 && dur >= s
  }

  /** Both are established exactly when each is. */
  lemma BothMeansEach(stop: AscStop, si: nat, sj: nat, di: real, dj: real)
    ensures BothEstablished(stop, si, sj, di, dj) <==> Established(stop, si, di) && Established(stop, sj, dj)
  {
  }

  ghost function EstablishedRoots(stop: AscStop, c: Clusters): set<nat>
    requires |c.active| == |c.sizes| == |c.dur|
  {
    set r | 0 <= r < |c.active| && c.active[r] && Established(stop, c.sizes[r], c.dur[r])
  }

  ghost predicate NonNegative(durs: seq<real>) {
    forall k :: 0 <= k < |durs| ==> durs[k] >= 0.0
  }

  lemma {:induction false} SpeechNonNegative(labels: seq<nat>, durs: seq<real>, r: nat, k: nat)
    requires k <= |labels| && k <= |durs| && NonNegative(durs)
    ensures Speech(labels, durs, r, k) >= 0.0
  {
    if k > 0 { SpeechNonNegative(labels, durs, r, k - 1); }
  }

  /** Joining two clusters that are not both established keeps every established one. */
  lemma JoinEstablished(stop: AscStop, c: Clusters, m: Clusters, i: nat, j: nat)
    requires |c.active| == |c.sizes| == |c.dur| == |m.active| == |m.sizes| == |m.dur|
    requires i < j < |c.active| && c.active[i] && c.active[j] && c.dur[i] >= 0.0 && c.dur[j] >= 0.0
    requires !BothEstablished(stop, c.sizes[i], c.sizes[j], c.dur[i], c.dur[j])
    requires m.active == c.active[j := false]
    requires m.sizes == c.sizes[i := c.sizes[i] + c.sizes[j]] && m.dur == c.dur[i := c.dur[i] + c.dur[j]]
    ensures |EstablishedRoots(stop, m)| >= |EstablishedRoots(stop, c)|
  {
    var before, after := EstablishedRoots(stop, c), EstablishedRoots(stop, m);
    BothMeansEach(stop, c.sizes[i], c.sizes[j], c.dur[i], c.dur[j]);
    assert i in before || j in before ==> i in after;
    MovedSize(before, after, i, j);
  }

  /** A set that loses at most `j`, and then has `i` instead, is no smaller. */
  lemma MovedSize(before: set<nat>, after: set<nat>, i: nat, j: nat)
    requires i != j && before - {j} <= after && (j in before ==> i !in before && i in after)
    ensures |before| <= |after|
  {
    if j in before {
      var moved := before - {j} + {i};
      assert |moved| == |before|;
      SubsetSize(moved, after);
    } else {
      SubsetSize(before, after);
    }
  }

  /** A due merge never costs an established cluster. */
  lemma MergeKeepsEstablished(cfg: Config, c: Clusters, n: nat, dim: nat, durs: seq<real>, i: nat, j: nat)
    requires cfg.Valid() && c.Shaped(n, dim) && Accounted(c, n, durs) && NonNegative(durs)
    requires Mergeable(cfg, c, n, dim, i, j)
    ensures |EstablishedRoots(cfg.stop, Merge(cfg, c, i, j))| >= |EstablishedRoots(cfg.stop, c)|
  {
    SpeechNonNegative(c.labels, durs, i, n);
    SpeechNonNegative(c.labels, durs, j, n);
    JoinEstablished(cfg.stop, c, Merge(cfg, c, i, j), i, j);
  }

  // ----- whole runs

  ghost predicate Sound(c: Clusters, n: nat, durs: seq<real>) {
    Rooted(c, n) && Accounted(c, n, durs)
  }

  lemma PathPrefix(cfg: Config, c: Clusters, n: nat, dim: nat, merges: seq<(nat, nat)>, k: nat)
    requires cfg.Valid() && c.Shaped(n, dim) && Path(cfg, c, n, dim, merges) && k <= |merges|
    ensures Path(cfg, c, n, dim, merges[..k])
  {
    forall x | 0 <= x < k ensures StepOk(cfg, c, n, dim, merges[..k], x) {
      assert StepOk(cfg, c, n, dim, merges, x);
      assert merges[..k][..x] == merges[..x];
    }
  }

  /** The last merge of a path joins two mergeable clusters of the state before it. */
  lemma LastMerge(cfg: Config, c: Clusters, n: nat, dim: nat, merges: seq<(nat, nat)>) returns (now: Clusters,
      i: nat, j: nat)
    requires cfg.Valid() && c.Shaped(n, dim) && Path(cfg, c, n, dim, merges) && merges != []
    ensures Path(cfg, c, n, dim, merges[..|merges| - 1]) && now == After(cfg, c, n, dim, merges[..|merges| - 1])
    ensures Mergeable(cfg, now, n, dim, i, j) && After(cfg, c, n, dim, merges) == Merge(cfg, now, i, j)
  {
    var m := |merges| - 1;
    PathPrefix(cfg, c, n, dim, merges, m);
    PathStep(cfg, c, n, dim, merges, m, merges[..m]);
    now, i, j := After(cfg, c, n, dim, merges[..m]), merges[m].0, merges[m].1;
  }

  /** Roots, sizes, durations and dominant members stay right through every run. */
  lemma {:induction false} RunKeepsSound(cfg: Config, c: Clusters, n: nat, dim: nat, durs: seq<real>,
      merges: seq<(nat, nat)>)
    requires cfg.Valid() && c.Shaped(n, dim) && Sound(c, n, durs) && Path(cfg, c, n, dim, merges)
    ensures Sound(After(cfg, c, n, dim, merges), n, durs)
    decreases |merges|
  {
    if merges != [] {
      var now, i, j := LastMerge(cfg, c, n, dim, merges);
      RunKeepsSound(cfg, c, n, dim, durs, merges[..|merges| - 1]);
      MergeKeepsRoots(cfg, now, n, dim, i, j);
      MergeKeepsAccounts(cfg, now, n, dim, durs, i, j);
    }
  }

  /** From any point of a run to any later one the number of established clusters
      does not fall. */
  lemma {:induction false} EstablishedNeverFalls(cfg: Config, c: Clusters, n: nat, dim: nat, durs: seq<real>,
                                                merges: seq<(nat, nat)>, k: nat)
    requires cfg.Valid() && c.Shaped(n, dim) && Sound(c, n, durs) && NonNegative(durs)
    requires Path(cfg, c, n, dim, merges) && k <= |merges|
    ensures |EstablishedRoots(cfg.stop, After(cfg, c, n, dim, merges))|
      >= |EstablishedRoots(cfg.stop, After(cfg, c, n, dim, merges[..k]))|
    decreases |merges|
  {
    if k < |merges| {
      var prefix := merges[..|merges| - 1];
      LastMergeKeeps(cfg, c, n, dim, durs, merges, prefix);
      EstablishedNeverFalls(cfg, c, n, dim, durs, prefix, k);
      assert prefix[..k] == merges[..k];
    } else {
      assert merges[..k] == merges;
    }
  }

  lemma LastMergeKeeps(cfg: Config, c: Clusters, n: nat, dim: nat, durs: seq<real>, merges: seq<(nat, nat)>,
                       prefix: seq<(nat, nat)>)
    requires cfg.Valid() && c.Shaped(n, dim) && Sound(c, n, durs) && NonNegative(durs)
    requires Path(cfg, c, n, dim, merges) && merges != [] && prefix == merges[..|merges| - 1]
    ensures Path(cfg, c, n, dim, prefix)
    ensures |EstablishedRoots(cfg.stop, After(cfg, c, n, dim, merges))|
      >= |EstablishedRoots(cfg.stop, After(cfg, c, n, dim, prefix))|
  {
    var now, i, j := LastMerge(cfg, c, n, dim, merges);
    RunKeepsSound(cfg, c, n, dim, durs, prefix);
    MergeKeepsEstablished(cfg, now, n, dim, durs, i, j);
  }

  /** When the run stops: every mergeable pair scores below the threshold, and the
      cluster count respects the ceiling unless all remaining pairs are established. */
  lemma StopsRight(cfg: Config, c: Clusters, n: nat, dim: nat)
    requires c.Shaped(n, dim) && Halts(cfg, c, n, dim)
    ensures forall i: nat, j: nat :: Mergeable(cfg, c, n, dim, i, j) ==> Score(cfg, c, i, j) < cfg.threshold
    ensures cfg.maxClusters > 0 && cfg.maxClusters < n && Count(c.active) > cfg.maxClusters ==>
      forall i: nat, j: nat :: i < j < n && c.active[i] && c.active[j] ==>
        Established(cfg.stop, c.sizes[i], c.dur[i]) && Established(cfg.stop, c.sizes[j], c.dur[j])
  {
    forall i: nat, j: nat | i < j < n && c.active[i] && c.active[j]
        && AboveCeiling(cfg.maxClusters, n, Count(c.active))
      ensures Established(cfg.stop, c.sizes[i], c.dur[i]) && Established(cfg.stop, c.sizes[j], c.dur[j])
    {
      assert !Mergeable(cfg, c, n, dim, i, j);
      BothMeansEach(cfg.stop, c.sizes[i], c.sizes[j], c.dur[i], c.dur[j]);
    }
  }

  // ----- the whole clustering

  /** Durations count only under `MinSecs` with one range per embedding: then each is the
      length of its range, nothing if it runs backwards. */
  function Durations(n: nat, stop: AscStop, times: Option<seq<TimeRange>>): (d: seq<real>)
    ensures |d| == n && NonNegative(d)
    ensures stop.MinSecs? && times.Some? && |times.value| == n ==> forall i :: 0 <= i < n ==>
      d[i] == if times.value[i].start <= times.value[i].end then times.value[i].end - times.value[i].start else 0.0
    ensures !(stop.MinSecs? && times.Some? && |times.value| == n) ==> forall i :: 0 <= i < n ==> d[i] == 0.0
  {
    if stop.MinSecs? && times.Some? && |times.value| == n
    then seq(n, i requires 0 <= i < n => times.value[i].Duration())
    else seq(n, _ => 0.0)
  }

  /** Cluster, then number the clusters canonically. The labels spell the partition
      of the naive run, whose state is sound and at rest. */
  method AhcImplWithMatrix(cfg: Config, embeddings: seq<Vec>, times: Option<seq<TimeRange>>, ghost dim: nat,
      sim: array2<Sim>)
    returns (labels: seq<nat>, ghost merges: seq<(nat, nat)>)
    requires cfg.Valid() && Uniform(embeddings, dim) && Scores(cfg, embeddings, sim)
    modifies sim
    ensures NaiveRun(cfg, Singletons(embeddings, Durations(|embeddings|, cfg.stop, times)), |embeddings|, dim, merges)
    ensures var end :=
      After(cfg, Singletons(embeddings, Durations(|embeddings|, cfg.stop, times)), |embeddings|, dim, merges);
      ClusterIds.Canonical(end.labels, labels) && Sound(end, |embeddings|, Durations(|embeddings|, cfg.stop, times))
  {
    var c;
    var durs := Durations(|embeddings|, cfg.stop, times);
    c, merges := MergeLoop(cfg, embeddings, durs, dim, sim);
    SingletonsAreSound(embeddings, durs);
    RunKeepsSound(cfg, Singletons(embeddings, durs), |embeddings|, dim, durs, merges);
    labels := ClusterIds.CompactClusterIds(c.labels);
  }
}

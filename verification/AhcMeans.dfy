/** What a merge makes of two clusters, and when one is due, said of every merge of a run:
    in members, sums and counts, not in the loop's own terms. */
module AhcMeans {
  import opened Ahc
  import opened AhcLaws
  import ClusterIds
  import opened Sorting

  // ----- counts are sizes of sets

  ghost function ActiveSet(active: seq<bool>): set<nat> {
    set i: nat | i < |active| && active[i]
  }

  lemma {:induction false} CountIsActive(active: seq<bool>)
    ensures Count(active) == |ActiveSet(active)|
  {
    if active != [] {
      var m := |active| - 1;
      CountIsActive(active[..m]);
      var before := ActiveSet(active[..m]);
      assert ActiveSet(active) == if active[m] then before + {m} else before;
    }
  }

  /** The members of root `r`. */
  ghost function MembersOf(c: Clusters, r: nat): set<nat> {
    ClusterIds.Members(c.labels, r, |c.labels|)
  }

  lemma SizeIsMembers(c: Clusters, n: nat, durs: seq<real>, r: nat)
    requires Accounted(c, n, durs) && r < n && c.active[r]
    ensures c.sizes[r] == |MembersOf(c, r)|
  {
    ClusterIds.CountIsMembers(c.labels, r, n);
  }

  // ----- one merge

  /** `v` is the mean of the two centroids, weighted by the members behind each. */
  ghost predicate IsMean(c: Clusters, i: nat, j: nat, dim: nat, v: Vec)
    requires i < |c.centroids| == |c.labels| && j < |c.centroids| && |c.centroids[i]| == |c.centroids[j]| == dim
  {
    var a, b := |MembersOf(c, i)|, |MembersOf(c, j)|;
    |v| == dim && forall d :: 0 <= d < dim ==>
      (a + b) as real * v[d] == a as real * c.centroids[i][d] + b as real * c.centroids[j][d]
  }

  /** Cluster `j` has gone into cluster `i`: the centroid is the normalised mean, the dominant
      member that of the side with more members, the left one when equal, and no other cluster
      is touched. */
  ghost predicate Joins(cfg: Config, now: Clusters, next: Clusters, n: nat, dim: nat, i: nat, j: nat)
    requires now.Shaped(n, dim) && next.Shaped(n, dim) && i < n && j < n
  {
    && MembersOf(next, i) == MembersOf(now, i) + MembersOf(now, j)
    && (exists v :: IsMean(now, i, j, dim, v) && next.centroids[i] == cfg.norm(v))
    && next.dominant[i] == (if |MembersOf(now, j)| > |MembersOf(now, i)| then now.dominant[j] else now.dominant[i])
    && (forall r: nat :: r < n ==> (next.active[r] <==> now.active[r] && r != j))
    && (forall r: nat :: r < n && r != i && r != j ==> MembersOf(next, r) == MembersOf(now, r))
    && (forall r: nat :: r < n && r != i ==>
          next.centroids[r] == now.centroids[r] && next.dominant[r] == now.dominant[r] && next.dur[r] == now.dur[r])
    && next.dur[i] == now.dur[i] + now.dur[j]
  }

  lemma WeightedMean(a: nat, b: nat, x: real, y: real)
    requires a > 0
    ensures (a + b) as real * (x * (a as real / (a + b) as real) + y * (b as real / (a + b) as real))
      == a as real * x + b as real * y
  {
    var t, p, q := (a + b) as real, a as real / (a + b) as real, b as real / (a + b) as real;
    assert t * p == a as real && t * q == b as real;
    assert t * (x * p + y * q) == (t * p) * x + (t * q) * y;
  }

  lemma MergeJoins(cfg: Config, c: Clusters, n: nat, dim: nat, durs: seq<real>, i: nat, j: nat)
    requires cfg.Valid() && c.Shaped(n, dim) && Sound(c, n, durs) && Mergeable(cfg, c, n, dim, i, j)
    ensures Joins(cfg, c, Merge(cfg, c, i, j), n, dim, i, j)
  {
    SizeIsMembers(c, n, durs, i);
    SizeIsMembers(c, n, durs, j);
    MergedMean(cfg, c, n, dim, i, j);
    MembersJoin(c.labels, i, j, n);
  }

  lemma MergedMean(cfg: Config, c: Clusters, n: nat, dim: nat, i: nat, j: nat)
    requires c.Shaped(n, dim) && i < n && j < n
    requires c.sizes[i] == |MembersOf(c, i)| && c.sizes[j] == |MembersOf(c, j)|
    ensures exists v :: IsMean(c, i, j, dim, v) && Merge(cfg, c, i, j).centroids[i] == cfg.norm(v)
  {
    var a, b := c.sizes[i], c.sizes[j];
    var v := Weighted(c.centroids[i], c.centroids[j], a as real / (a + b) as real, b as real / (a + b) as real);
    MeanIsWeighted(c, n, dim, i, j, v);
  }

  lemma MeanIsWeighted(c: Clusters, n: nat, dim: nat, i: nat, j: nat, v: Vec)
    requires c.Shaped(n, dim) && i < n && j < n
    requires c.sizes[i] == |MembersOf(c, i)| && c.sizes[j] == |MembersOf(c, j)|
    requires var a, b := c.sizes[i], c.sizes[j];
      v == Weighted(c.centroids[i], c.centroids[j], a as real / (a + b) as real, b as real / (a + b) as real)
    ensures IsMean(c, i, j, dim, v)
  {
    forall d | 0 <= d < dim
      ensures (c.sizes[i] + c.sizes[j]) as real * v[d]
        == c.sizes[i] as real * c.centroids[i][d] + c.sizes[j] as real * c.centroids[j][d]
    {
      WeightedMean(c.sizes[i], c.sizes[j], c.centroids[i][d], c.centroids[j][d]);
    }
  }

  lemma MembersJoin(labels: seq<nat>, i: nat, j: nat, n: nat)
    requires n == |labels| && i != j
    ensures var r := Relabel(labels, j, i);
      && ClusterIds.Members(r, i, n) == ClusterIds.Members(labels, i, n) + ClusterIds.Members(labels, j, n)
      && forall x: nat :: x != i && x != j ==> ClusterIds.Members(r, x, n) == ClusterIds.Members(labels, x, n)
  {
    forall x: nat | x != i && x != j
      ensures ClusterIds.Members(Relabel(labels, j, i), x, n) == ClusterIds.Members(labels, x, n)
    {
    }
  }

  // ----- every merge of a run

  /** More clusters are left than the ceiling allows. */
  ghost predicate TooMany(cfg: Config, c: Clusters, n: nat) {
    0 < cfg.maxClusters < n && |ActiveSet(c.active)| > cfg.maxClusters
  }

  /** Both clusters have what the stop asks for, in members or in speech. */
  ghost predicate BothSettled(stop: AscStop, c: Clusters, durs: seq<real>, i: nat, j: nat)
    requires |durs| == |c.labels|
  {
    match stop
    case Off => false
    case MinMembers(m) => m > 0 && |MembersOf(c, i)| >= m && |MembersOf(c, j)| >= m
    case MinSecs(s) => s > 0.0 && Speech(c.labels, durs, i, |durs|) >= s && Speech(c.labels, durs, j, |durs|) >= s
  }

  /** A due merge: of two clusters that are not both settled, the first pair in row order of
      the highest score among such, at or above the threshold unless there are too many. */
  ghost predicate Due(cfg: Config, c: Clusters, n: nat, dim: nat, durs: seq<real>, i: nat, j: nat)
    requires c.Shaped(n, dim) && |durs| == n
  {
    && i < j < n && c.active[i] && c.active[j] && !BothSettled(cfg.stop, c, durs, i, j)
    && (Score(cfg, c, i, j) >= cfg.threshold || TooMany(cfg, c, n))
    && forall k: nat, l: nat :: k < l < n && c.active[k] && c.active[l] && !BothSettled(cfg.stop, c, durs, k, l) ==>
         Score(cfg, c, k, l) < Score(cfg, c, i, j) ||
           (Score(cfg, c, k, l) == Score(cfg, c, i, j) && (i < k || (i == k && j <= l)))
  }

  lemma SettledIsEstablished(cfg: Config, c: Clusters, n: nat, dim: nat, durs: seq<real>, k: nat, l: nat)
    requires c.Shaped(n, dim) && Accounted(c, n, durs) && k < n && l < n && c.active[k] && c.active[l]
    ensures BothSettled(cfg.stop, c, durs, k, l) <==>
      BothEstablished(cfg.stop, c.sizes[k], c.sizes[l], c.dur[k], c.dur[l])
  {
    SizeIsMembers(c, n, durs, k);
    SizeIsMembers(c, n, durs, l);
  }

  lemma BestIsDue(cfg: Config, c: Clusters, n: nat, dim: nat, durs: seq<real>, i: nat, j: nat)
    requires c.Shaped(n, dim) && Accounted(c, n, durs) && IsBest(cfg, c, n, dim, i, j) && !Halts(cfg, c, n, dim)
    ensures Due(cfg, c, n, dim, durs, i, j)
  {
    CountIsActive(c.active);
    forall k: nat, l: nat | k < l < n && c.active[k] && c.active[l] && !BothSettled(cfg.stop, c, durs, k, l)
      ensures Mergeable(cfg, c, n, dim, k, l)
    {
      SettledIsEstablished(cfg, c, n, dim, durs, k, l);
    }
    SettledIsEstablished(cfg, c, n, dim, durs, i, j);
  }

  ghost predicate RightMerge(cfg: Config, now: Clusters, next: Clusters, n: nat, dim: nat, durs: seq<real>,
                             i: nat, j: nat)
  {
    && now.Shaped(n, dim) && next.Shaped(n, dim) && |durs| == n && i < n && j < n
    && Due(cfg, now, n, dim, durs, i, j) && Joins(cfg, now, next, n, dim, i, j)
  }

  /** The last merge of a path was due, and joined its two clusters. */
  lemma LastMergeOk(cfg: Config, c: Clusters, n: nat, dim: nat, durs: seq<real>, merges: seq<(nat, nat)>)
    returns (now: Clusters, next: Clusters, i: nat, j: nat)
    requires cfg.Valid() && c.Shaped(n, dim) && Sound(c, n, durs) && Path(cfg, c, n, dim, merges) && merges != []
    ensures InRange(merges[..|merges| - 1], n) && now == After(cfg, c, n, dim, merges[..|merges| - 1])
    ensures next == After(cfg, c, n, dim, merges) && merges[|merges| - 1] == (i, j)
    ensures RightMerge(cfg, now, next, n, dim, durs, i, j)
  {
    var m := |merges| - 1;
    var prefix := merges[..m];
    PathPrefix(cfg, c, n, dim, merges, m);
    PathStep(cfg, c, n, dim, merges, m, prefix);
    RunKeepsSound(cfg, c, n, dim, durs, prefix);
    now, next, i, j := After(cfg, c, n, dim, prefix), After(cfg, c, n, dim, merges), merges[m].0, merges[m].1;
    MergeOk(cfg, now, n, dim, durs, i, j);
  }

  lemma MergeOk(cfg: Config, now: Clusters, n: nat, dim: nat, durs: seq<real>, i: nat, j: nat)
    requires cfg.Valid() && now.Shaped(n, dim) && Sound(now, n, durs) && IsBest(cfg, now, n, dim, i, j)
    requires !Halts(cfg, now, n, dim)
    ensures RightMerge(cfg, now, Merge(cfg, now, i, j), n, dim, durs, i, j)
  {
    MergeJoins(cfg, now, n, dim, durs, i, j);
    BestIsDue(cfg, now, n, dim, durs, i, j);
  }

  /** So was every merge of a run: the last one of the path that ends with it. */
  lemma EveryMerge(cfg: Config, c: Clusters, n: nat, dim: nat, durs: seq<real>, merges: seq<(nat, nat)>, k: nat,
                   path: seq<(nat, nat)>)
    returns (now: Clusters, next: Clusters, i: nat, j: nat)
    requires cfg.Valid() && c.Shaped(n, dim) && Sound(c, n, durs) && Path(cfg, c, n, dim, merges)
    requires k < |merges| && path == merges[..k + 1]
    ensures InRange(path, n) && InRange(path[..k], n) && merges[k] == (i, j)
    ensures now == After(cfg, c, n, dim, path[..k]) && next == After(cfg, c, n, dim, path)
    ensures RightMerge(cfg, now, next, n, dim, durs, i, j)
  {
    PathPrefix(cfg, c, n, dim, merges, k + 1);
    now, next, i, j := LastMergeOk(cfg, c, n, dim, durs, path);
  }

  /** A run that is over: no two clusters are due. */
  lemma NothingDue(cfg: Config, c: Clusters, n: nat, dim: nat, durs: seq<real>, i: nat, j: nat)
    requires c.Shaped(n, dim) && Accounted(c, n, durs) && Halts(cfg, c, n, dim)
    requires i < j < n && c.active[i] && c.active[j] && !BothSettled(cfg.stop, c, durs, i, j)
    ensures Score(cfg, c, i, j) < cfg.threshold && !TooMany(cfg, c, n)
  {
    CountIsActive(c.active);
    SettledIsEstablished(cfg, c, n, dim, durs, i, j);
    assert Mergeable(cfg, c, n, dim, i, j);
  }

  // ----- centroids over a whole run

  /** Component `d` of every embedding. */
  function Component(embeddings: seq<Vec>, dim: nat, d: nat): (r: seq<real>)
    requires d < dim && forall i :: 0 <= i < |embeddings| ==> |embeddings[i]| == dim
    ensures |r| == |embeddings| && forall i :: 0 <= i < |embeddings| ==> r[i] == embeddings[i][d]
  {
    seq(|embeddings|, i requires 0 <= i < |embeddings| => embeddings[i][d])
  }

  /** A centroid's component, as often as the cluster has members. */
  ghost function Mass(c: Clusters, r: nat, d: nat): real
    requires r < |c.centroids| && d < |c.centroids[r]|
  {
    |MembersOf(c, r)| as real * c.centroids[r][d]
  }

  /** Each centroid times its members is the sum of their embeddings. */
  ghost predicate Centred(c: Clusters, embeddings: seq<Vec>, dim: nat)
    requires Uniform(embeddings, dim) && c.Shaped(|embeddings|, dim)
  {
    forall r: nat, d: nat :: r < |embeddings| && c.active[r] && d < dim ==>
      Mass(c, r, d) == Speech(c.labels, Component(embeddings, dim, d), r, |embeddings|)
  }

  lemma SingletonsCentred(embeddings: seq<Vec>, durs: seq<real>, dim: nat)
    requires Uniform(embeddings, dim) && |durs| == |embeddings|
    ensures Centred(Singletons(embeddings, durs), embeddings, dim)
  {
    var n, c := |embeddings|, Singletons(embeddings, durs);
    forall r: nat, d: nat | r < n && d < dim
      ensures Mass(c, r, d) == Speech(c.labels, Component(embeddings, dim, d), r, n)
    {
      SingletonMembers(n, Component(embeddings, dim, d), r, n);
      assert MembersOf(c, r) == {r};
    }
  }

  /** A merge adds up what two clusters have, and changes no other. */
  lemma JoinedMass(cfg: Config, now: Clusters, next: Clusters, n: nat, dim: nat, i: nat, j: nat, r: nat, d: nat)
    requires now.Shaped(n, dim) && next.Shaped(n, dim) && i < n && j < n && i != j && r < n && r != j && d < dim
    requires Joins(cfg, now, next, n, dim, i, j) && forall a :: cfg.norm(a) == a
    ensures Mass(next, r, d) == if r == i then Mass(now, i, d) + Mass(now, j, d) else Mass(now, r, d)
  {
    if r == i {
      var v :| IsMean(now, i, j, dim, v) && next.centroids[i] == cfg.norm(v);
      assert MembersOf(now, i) !! MembersOf(now, j);
      assert |MembersOf(next, i)| == |MembersOf(now, i)| + |MembersOf(now, j)|;
    }
  }

  lemma MergeKeepsCentred(cfg: Config, c: Clusters, embeddings: seq<Vec>, durs: seq<real>, dim: nat, i: nat, j: nat)
    requires Uniform(embeddings, dim) && c.Shaped(|embeddings|, dim) && Centred(c, embeddings, dim)
    requires Sound(c, |embeddings|, durs) && Mergeable(cfg, c, |embeddings|, dim, i, j)
    requires cfg.Valid() && forall a :: cfg.norm(a) == a
    ensures Centred(Merge(cfg, c, i, j), embeddings, dim)
  {
    var m, n := Merge(cfg, c, i, j), |embeddings|;
    MergeJoins(cfg, c, n, dim, durs, i, j);
    forall r: nat, d: nat | r < n && m.active[r] && d < dim
      ensures Mass(m, r, d) == Speech(m.labels, Component(embeddings, dim, d), r, n)
    {
      CentredCell(cfg, c, m, n, dim, i, j, Component(embeddings, dim, d), r, d);
    }
  }

  lemma CentredCell(cfg: Config, c: Clusters, m: Clusters, n: nat, dim: nat, i: nat, j: nat, column: seq<real>,
                    r: nat, d: nat)
    requires c.Shaped(n, dim) && m.Shaped(n, dim) && i < n && j < n && i != j && r < n && r != j && d < dim
    requires Joins(cfg, c, m, n, dim, i, j) && m.labels == Relabel(c.labels, j, i) && forall a :: cfg.norm(a) == a
    requires |column| == n && Mass(c, r, d) == Speech(c.labels, column, r, n)
    requires Mass(c, j, d) == Speech(c.labels, column, j, n)
    ensures Mass(m, r, d) == Speech(m.labels, column, r, n)
  {
    JoinedMass(cfg, c, m, n, dim, i, j, r, d);
    RelabelMembers(c.labels, column, i, j, r, n);
  }

  /** Without normalising, centroids are the means of their members through every run. */
  lemma {:induction false} RunKeepsCentred(cfg: Config, embeddings: seq<Vec>, durs: seq<real>, dim: nat,
      merges: seq<(nat, nat)>)
    requires Uniform(embeddings, dim) && |durs| == |embeddings| && cfg.Valid() && forall a :: cfg.norm(a) == a
    requires Path(cfg, Singletons(embeddings, durs), |embeddings|, dim, merges)
    ensures Centred(After(cfg, Singletons(embeddings, durs), |embeddings|, dim, merges), embeddings, dim)
    decreases |merges|
  {
    var c, n := Singletons(embeddings, durs), |embeddings|;
    if merges == [] {
      SingletonsCentred(embeddings, durs, dim);
    } else {
      var prefix := merges[..|merges| - 1];
      var now, i, j := LastMerge(cfg, c, n, dim, merges);
      RunKeepsCentred(cfg, embeddings, durs, dim, prefix);
      SingletonsAreSound(embeddings, durs);
      RunKeepsSound(cfg, c, n, dim, durs, prefix);
      MergeKeepsCentred(cfg, now, embeddings, durs, dim, i, j);
    }
  }
}

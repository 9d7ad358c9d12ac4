/** Agglomerative clustering over a cached similarity matrix. The scorer and the
    normalisation are parameters; `NegInf` is the matrix's "no pair". */
module Ahc {
  import opened Sorting

  type Vec = seq<real>

  datatype Sim = NegInf | Val(v: real)

  predicate Above(a: Sim, b: Sim) {
    a.Val? && (b.NegInf? || a.v > b.v)
  }

  datatype AscStop = Off | MinMembers(m: nat) | MinSecs(s: real)

  datatype Config = Config(score: (Vec, nat, Vec, nat) -> real, norm: Vec -> Vec,
                           threshold: real, maxClusters: nat, stop: AscStop)
  {
    /** The scorer is symmetric and normalising keeps the dimension. */
    ghost predicate Valid() {
      && (forall a, x, b, y :: score(a, x, b, y) == score(b, y, a, x))
      && (forall a :: |norm(a)| == |a|)
    }
  }

  /** Everything the merge loop keeps besides the matrix. */
  datatype Clusters = Clusters(labels: seq<nat>, centroids: seq<Vec>, sizes: seq<nat>, dominant: seq<nat>,
                               dur: seq<real>, active: seq<bool>)
  {
    ghost predicate Shaped(n: nat, dim: nat) {
      && |labels| == |centroids| == |sizes| == |dominant| == |dur| == |active| == n
      && forall i :: 0 <= i < n ==> |centroids[i]| == dim && sizes[i] > 0
    }
  }

  predicate BothEstablished(stop: AscStop, sizeI: nat, sizeJ: nat, durI: real, durJ: real) {
    match stop
    case Off => false
    case MinMembers(m) => m > 0 && sizeI >= m && sizeJ >= m
    case MinSecs(s) => s > 0.0 && durI >= s && durJ >= s
  }

  function Weighted(a: Vec, b: Vec, wa: real, wb: real): (r: Vec)
    requires |a| == |b|
    ensures |r| == |a|
  {
    seq(|a|, k requires 0 <= k < |a| => a[k] * wa + b[k] * wb)
  }

  // ----- the loop that rescores everything

  ghost function Score(cfg: Config, c: Clusters, i: nat, j: nat): real
    requires i < |c.centroids| == |c.dominant| && j < |c.centroids|
  {
    cfg.score(c.centroids[i], c.dominant[i], c.centroids[j], c.dominant[j])
  }

  /** `i < j` are active and not both established. */
  ghost predicate Mergeable(cfg: Config, c: Clusters, n: nat, dim: nat, i: nat, j: nat)
    requires c.Shaped(n, dim)
  {
    i < j < n && c.active[i] && c.active[j] && !BothEstablished(cfg.stop, c.sizes[i], c.sizes[j], c.dur[i], c.dur[j])
  }

  predicate Precedes(i: nat, j: nat, k: nat, l: nat) {
    i < k || (i == k && j <= l)
  }

  /** The mergeable pair of highest fresh score, the first such in row order. */
  ghost predicate IsBest(cfg: Config, c: Clusters, n: nat, dim: nat, i: nat, j: nat)
    requires c.Shaped(n, dim)
  {
    && Mergeable(cfg, c, n, dim, i, j)
    && forall k: nat, l: nat :: Mergeable(cfg, c, n, dim, k, l) ==>
        Score(cfg, c, k, l) < Score(cfg, c, i, j) ||
          (Score(cfg, c, k, l) == Score(cfg, c, i, j) && Precedes(i, j, k, l))
  }

  function Count(active: seq<bool>): nat {
    if active == [] then 0 else Count(active[..|active| - 1]) + if active[|active| - 1] then 1 else 0
  }

  predicate AboveCeiling(maxClusters: nat, n: nat, count: nat) {
    maxClusters > 0 && maxClusters < n && count > maxClusters
  }

  /** No merge is due: over the ceiling only when no pair is mergeable, otherwise
      when every mergeable pair scores below the threshold. */
  ghost predicate Halts(cfg: Config, c: Clusters, n: nat, dim: nat)
    requires c.Shaped(n, dim)
  {
    forall i: nat, j: nat :: Mergeable(cfg, c, n, dim, i, j) ==>
      !AboveCeiling(cfg.maxClusters, n, Count(c.active)) && Score(cfg, c, i, j) < cfg.threshold
  }

  function Relabel(labels: seq<nat>, from: nat, to: nat): (r: seq<nat>)
    ensures |r| == |labels|
  {
    seq(|labels|, k requires 0 <= k < |labels| => if labels[k] == from then to else labels[k])
  }

  /** Cluster `j` goes into cluster `i`. */
  function Merge(cfg: Config, c: Clusters, i: nat, j: nat): (r: Clusters)
    requires |c.labels| == |c.centroids| == |c.sizes| == |c.dominant| == |c.dur| == |c.active|
    requires i < |c.labels| && j < |c.labels| && c.sizes[i] > 0 && |c.centroids[i]| == |c.centroids[j]|
  {
    var total := c.sizes[i] + c.sizes[j];
    var mean := Weighted(c.centroids[i], c.centroids[j], c.sizes[i] as real / total as real,
      c.sizes[j] as real / total as real);
    Clusters(
      Relabel(c.labels, j, i),
      c.centroids[i := cfg.norm(mean)],
      c.sizes[i := total],
      if c.sizes[j] > c.sizes[i] then c.dominant[i := c.dominant[j]] else c.dominant,
      c.dur[i := c.dur[i] + c.dur[j]],
      c.active[j := false])
  }

  /** The clusters after a list of merges. */
  ghost function After(cfg: Config, c: Clusters, n: nat, dim: nat, merges: seq<(nat, nat)>): (r: Clusters)
    requires cfg.Valid() && c.Shaped(n, dim) && forall k :: 0 <= k < |merges| ==> merges[k].0 < merges[k].1 < n
    ensures r.Shaped(n, dim)
  {
    if merges == [] then c
    else
      var last := merges[|merges| - 1];
      Merge(cfg, After(cfg, c, n, dim, merges[..|merges| - 1]), last.0, last.1)
  }

  ghost predicate InRange(merges: seq<(nat, nat)>, n: nat) {
    forall k :: 0 <= k < |merges| ==> merges[k].0 < merges[k].1 < n
  }

  /** Every merge is the best pair of its round and was due. */
  ghost predicate Path(cfg: Config, c: Clusters, n: nat, dim: nat, merges: seq<(nat, nat)>)
    requires cfg.Valid() && c.Shaped(n, dim)
  {
    InRange(merges, n) &&
    forall k :: 0 <= k < |merges| ==> StepOk(cfg, c, n, dim, merges, k)
  }

  ghost predicate StepOk(cfg: Config, c: Clusters, n: nat, dim: nat, merges: seq<(nat, nat)>, k: nat)
    requires cfg.Valid() && c.Shaped(n, dim) && InRange(merges, n) && k < |merges|
  {
    var now := After(cfg, c, n, dim, merges[..k]);
    IsBest(cfg, now, n, dim, merges[k].0, merges[k].1) && !Halts(cfg, now, n, dim)
  }

  /** The merges of the loop that rescores every active pair in every round. */
  ghost predicate NaiveRun(cfg: Config, c: Clusters, n: nat, dim: nat, merges: seq<(nat, nat)>)
    requires cfg.Valid() && c.Shaped(n, dim)
  {
    Path(cfg, c, n, dim, merges) && Halts(cfg, After(cfg, c, n, dim, merges), n, dim)
  }

  lemma BestIsUnique(cfg: Config, c: Clusters, n: nat, dim: nat, i: nat, j: nat, k: nat, l: nat)
    requires c.Shaped(n, dim) && IsBest(cfg, c, n, dim, i, j) && IsBest(cfg, c, n, dim, k, l)
    ensures i == k && j == l
  {
  }

  lemma PathStep(cfg: Config, c: Clusters, n: nat, dim: nat, a: seq<(nat, nat)>, k: nat, prefix: seq<(nat, nat)>)
    requires cfg.Valid() && c.Shaped(n, dim) && Path(cfg, c, n, dim, a) && k < |a| && prefix == a[..k]
    ensures InRange(prefix, n)
    ensures IsBest(cfg, After(cfg, c, n, dim, prefix), n, dim, a[k].0, a[k].1)
    ensures !Halts(cfg, After(cfg, c, n, dim, prefix), n, dim)
  {
    assert StepOk(cfg, c, n, dim, a, k);
  }

  lemma {:induction false} PathsAgree(cfg: Config, c: Clusters, n: nat, dim: nat, a: seq<(nat, nat)>,
      b: seq<(nat, nat)>, k: nat)
    requires cfg.Valid() && c.Shaped(n, dim) && Path(cfg, c, n, dim, a) && Path(cfg, c, n, dim, b)
    requires k <= |a| && k <= |b|
    ensures a[..k] == b[..k]
  {
    if k > 0 {
      PathsAgree(cfg, c, n, dim, a, b, k - 1);
      var prefix := a[..k - 1];
      PathStep(cfg, c, n, dim, a, k - 1, prefix);
      PathStep(cfg, c, n, dim, b, k - 1, prefix);
      BestIsUnique(cfg, After(cfg, c, n, dim, prefix), n, dim, a[k - 1].0, a[k - 1].1, b[k - 1].0, b[k - 1].1);
      assert a[k - 1] == b[k - 1] && a[..k] == prefix + [a[k - 1]];
    }
  }

  lemma LongerGoesOn(cfg: Config, c: Clusters, n: nat, dim: nat, a: seq<(nat, nat)>, b: seq<(nat, nat)>)
    requires cfg.Valid() && c.Shaped(n, dim) && Path(cfg, c, n, dim, a) && Path(cfg, c, n, dim, b) && |a| < |b|
    ensures !Halts(cfg, After(cfg, c, n, dim, a), n, dim)
  {
    PathsAgree(cfg, c, n, dim, a, b, |a|);
    assert b[..|a|] == a[..|a|] == a;
    PathStep(cfg, c, n, dim, b, |a|, a);
  }

  /** There is only one naive run. */
  lemma NaiveRunIsUnique(cfg: Config, c: Clusters, n: nat, dim: nat, a: seq<(nat, nat)>, b: seq<(nat, nat)>)
    requires cfg.Valid() && c.Shaped(n, dim) && NaiveRun(cfg, c, n, dim, a) && NaiveRun(cfg, c, n, dim, b)
    ensures a == b
  {
    if |a| < |b| {
      LongerGoesOn(cfg, c, n, dim, a, b);
      assert false;
    }
    if |b| < |a| {
      LongerGoesOn(cfg, c, n, dim, b, a);
      assert false;
    }
    PathsAgree(cfg, c, n, dim, a, b, |a|);
    assert a[..|a|] == a && b[..|b|] == b;
  }

  // ----- the loop over the cached matrix

  /** The matrix holds the fresh score of every pair of active clusters. */
  ghost predicate Fresh(cfg: Config, c: Clusters, n: nat, dim: nat, sim: array2<Sim>)
    requires c.Shaped(n, dim) && sim.Length0 == sim.Length1 == n
    reads sim
  {
    forall i, j :: 0 <= i < n && 0 <= j < n && i != j && c.active[i] && c.active[j] ==>
      sim[i, j] == Val(Score(cfg, c, i, j))
  }

  /** Scan the cached matrix for the best mergeable pair. */
  method BestPair(cfg: Config, c: Clusters, n: nat, ghost dim: nat, sim: array2<Sim>) returns (best: Sim, bi: nat,
      bj: nat)
    requires c.Shaped(n, dim) && sim.Length0 == sim.Length1 == n && Fresh(cfg, c, n, dim, sim)
    ensures best.NegInf? ==> forall k, l :: !Mergeable(cfg, c, n, dim, k, l)
    ensures best.Val? ==> IsBest(cfg, c, n, dim, bi, bj) && best.v == Score(cfg, c, bi, bj)
  {
    best, bi, bj := NegInf, 0, 0;
    for i := 0 to n
      invariant BestSoFar(cfg, c, n, dim, i, 0, best, bi, bj)
    {
      if c.active[i] {
        for j := i + 1 to n
          invariant BestSoFar(cfg, c, n, dim, i, j, best, bi, bj)
        {
          if c.active[j] && !BothEstablished(cfg.stop, c.sizes[i], c.sizes[j], c.dur[i], c.dur[j]) {
            if Above(sim[i, j], best) {
              best, bi, bj := sim[i, j], i, j;
            }
          }
        }
      }
    }
  }

  /** `best` is the best pair among those that precede (`i`, `j`) in row order. */
  ghost predicate BestSoFar(cfg: Config, c: Clusters, n: nat, dim: nat, i: nat, j: nat, best: Sim, bi: nat, bj: nat)
    requires c.Shaped(n, dim)
  {
    && (best.Val? ==>
      Mergeable(cfg, c, n, dim, bi, bj) && best.v == Score(cfg, c, bi, bj) && (bi < i || (bi == i && bj < j)))
    && forall k: nat, l: nat :: Mergeable(cfg, c, n, dim, k, l) && (k < i || (k == i && l < j)) ==>
        best.Val? && (Score(cfg, c, k, l) < best.v || (Score(cfg, c, k, l) == best.v && Precedes(bi, bj, k, l)))
  }

  /** Drop row and column `j`, then rescore row and column `i`. */
  method RefreshMatrix(cfg: Config, c: Clusters, ghost before: Clusters, n: nat, ghost dim: nat, sim: array2<Sim>,
      i: nat, j: nat)
    requires cfg.Valid() && before.Shaped(n, dim) && c.Shaped(n, dim) && i < n && j < n && i != j
    requires c == Merge(cfg, before, i, j) && sim.Length0 == sim.Length1 == n
    requires Fresh(cfg, before, n, dim, sim)
    modifies sim
    ensures Fresh(cfg, c, n, dim, sim)
  {
    for k := 0 to n
      invariant forall a, b :: 0 <= a < n && 0 <= b < n && a != j && b != j ==> sim[a, b] == old(sim[a, b])
    {
      sim[j, k] := NegInf;
      sim[k, j] := NegInf;
    }
    for k := 0 to n
      invariant forall a, b :: 0 <= a < n && 0 <= b < n && a != j && b != j && a != i && b != i ==>
        sim[a, b] == old(sim[a, b])
      invariant forall b :: 0 <= b < k && b != i && c.active[b] ==>
        sim[i, b] == Val(Score(cfg, c, i, b)) && sim[b, i] == Val(Score(cfg, c, i, b))
    {
      if k != i && c.active[k] {
        var s := cfg.score(c.centroids[i], c.dominant[i], c.centroids[k], c.dominant[k]);
        sim[i, k] := Val(s);
        sim[k, i] := Val(s);
      }
    }
  }

  lemma {:induction false} CountDrop(active: seq<bool>, j: nat)
    requires j < |active| && active[j]
    ensures Count(active) == Count(active[j := false]) + 1
  {
    var m := |active| - 1;
    if j == m {
      assert active[j := false][..m] == active[..m];
    } else {
      CountDrop(active[..m], j);
      assert active[j := false][..m] == active[..m][j := false];
    }
  }

  method CountActive(active: seq<bool>) returns (k: nat)
    ensures k == Count(active)
  {
    k := 0;
    for i := 0 to |active|
      invariant k == Count(active[..i])
    {
      assert active[..i + 1][..i] == active[..i];
      if active[i] { k := k + 1; }
    }
    assert active[..|active|] == active;
  }

  /** Merge `j` into `i`, vector by vector. */
  method MergeInto(cfg: Config, c: Clusters, ghost n: nat, ghost dim: nat, i: nat, j: nat) returns (r: Clusters)
    requires c.Shaped(n, dim) && i < n && j < n
    ensures r == Merge(cfg, c, i, j)
  {
    r := c;
    var total := c.sizes[i] + c.sizes[j];
    var wi, wj := c.sizes[i] as real / total as real, c.sizes[j] as real / total as real;
    var mean: Vec := seq(|c.centroids[i]|, _ => 0.0);
    for k := 0 to |mean|
      invariant |mean| == |c.centroids[i]|
      invariant forall x :: 0 <= x < k ==> mean[x] == c.centroids[i][x] * wi + c.centroids[j][x] * wj
    {
      mean := mean[k := c.centroids[i][k] * wi + c.centroids[j][k] * wj];
    }
    assert forall x :: 0 <= x < |mean| ==> mean[x] == Weighted(c.centroids[i], c.centroids[j], wi, wj)[x];
    assert mean == Weighted(c.centroids[i], c.centroids[j], wi, wj);
    r := r.(centroids := r.centroids[i := cfg.norm(mean)]);
    if r.sizes[j] > r.sizes[i] {
      r := r.(dominant := r.dominant[i := r.dominant[j]]);
    }
    r := r.(sizes := r.sizes[i := total]);
    r := r.(dur := r.dur[i := r.dur[i] + r.dur[j]]);
    r := r.(active := r.active[j := false]);
    var labels := RelabelAll(r.labels, j, i);
    r := r.(labels := labels);
  }

  method RelabelAll(labels: seq<nat>, from: nat, to: nat) returns (r: seq<nat>)
    ensures r == Relabel(labels, from, to)
  {
    r := labels;
    for k := 0 to |labels|
      invariant |r| == |labels|
      invariant forall x :: 0 <= x < |labels| ==> r[x] == if x < k && labels[x] == from then to else labels[x]
    {
      if r[k] == from {
        r := r[k := to];
      }
    }
  }

  /** Appending the best due merge extends a path. */
  lemma PathAppend(cfg: Config, c: Clusters, n: nat, dim: nat, merges: seq<(nat, nat)>, i: nat, j: nat)
    requires cfg.Valid() && c.Shaped(n, dim) && Path(cfg, c, n, dim, merges)
    requires IsBest(cfg, After(cfg, c, n, dim, merges), n, dim, i, j)
    requires !Halts(cfg, After(cfg, c, n, dim, merges), n, dim)
    ensures Path(cfg, c, n, dim, merges + [(i, j)])
    ensures After(cfg, c, n, dim, merges + [(i, j)]) == Merge(cfg, After(cfg, c, n, dim, merges), i, j)
  {
    var longer := merges + [(i, j)];
    assert longer[..|merges|] == merges;
    forall k | 0 <= k < |longer| ensures StepOk(cfg, c, n, dim, longer, k) {
      if k < |merges| {
        assert StepOk(cfg, c, n, dim, merges, k);
        assert longer[..k] == merges[..k];
      }
    }
  }

  function Singletons(embeddings: seq<Vec>, durs: seq<real>): Clusters
    requires |durs| == |embeddings|
  {
    var n := |embeddings|;
    Clusters(UpTo(n), embeddings, seq(n, _ => 1), UpTo(n), durs, seq(n, _ => true))
  }

  ghost predicate Uniform(embeddings: seq<Vec>, dim: nat) {
    forall i :: 0 <= i < |embeddings| ==> |embeddings[i]| == dim
  }

  /** The caller's matrix: the score of every pair of embeddings. */
  ghost predicate Scores(cfg: Config, embeddings: seq<Vec>, sim: array2<Sim>)
    reads sim
  {
    && sim.Length0 == sim.Length1 == |embeddings|
    && forall i, j :: 0 <= i < |embeddings| && 0 <= j < |embeddings| && i != j ==>
        sim[i, j] == Val(cfg.score(embeddings[i], i, embeddings[j], j))
  }

  /** The merge loop over the cached matrix makes exactly the merges of the loop
      that rescores every active pair in every round. */
  method MergeLoop(cfg: Config, embeddings: seq<Vec>, durs: seq<real>, ghost dim: nat, sim: array2<Sim>)
    returns (c: Clusters, ghost merges: seq<(nat, nat)>)
    requires cfg.Valid() && Uniform(embeddings, dim) && |durs| == |embeddings|
    requires Scores(cfg, embeddings, sim)
    modifies sim
    ensures NaiveRun(cfg, Singletons(embeddings, durs), |embeddings|, dim, merges)
    ensures c == After(cfg, Singletons(embeddings, durs), |embeddings|, dim, merges)
  {
    var n := |embeddings|;
    c := Singletons(embeddings, durs);
    ghost var c0 := c;
    merges := [];
    while true
      invariant Path(cfg, c0, n, dim, merges) && c == After(cfg, c0, n, dim, merges)
      invariant Fresh(cfg, c, n, dim, sim)
      decreases Count(c.active)
    {
      var best, bi, bj := BestPair(cfg, c, n, dim, sim);
      var count := CountActive(c.active);
      var above := AboveCeiling(cfg.maxClusters, n, count);
      if !above && (best.NegInf? || best.v < cfg.threshold) {
        break;
      }
      if above && best.NegInf? {
        break;
      }
      if best.NegInf? {
        break;
      }
      PathAppend(cfg, c0, n, dim, merges, bi, bj);
      CountDrop(c.active, bj);
      merges := merges + [(bi, bj)];
      var merged := MergeInto(cfg, c, n, dim, bi, bj);
      RefreshMatrix(cfg, merged, c, n, dim, sim, bi, bj);
      c := merged;
    }
  }
}

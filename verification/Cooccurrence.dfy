/** The speaker map of maximum co-occurrence, found by solving a padded square
    assignment problem and dropping the pairs that never co-occur. */
module Cooccurrence {
  import opened Assignment
  import opened Sorting
  import Hungarian
  import opened Wrappers

  /** (hypothesis id, reference id) -> number of shared frames or words. */
  type Counts = map<(nat, nat), nat>

  function Count(c: Counts, h: nat, r: nat): nat {
    if (h, r) in c then c[(h, r)] else 0
  }

  function HypIds(c: Counts): set<nat> {
    set k | k in c :: k.0
  }

  function RefIds(c: Counts): set<nat> {
    set k | k in c :: k.1
  }

  predicate OneToOne(m: map<nat, nat>) {
    forall h, h' :: h in m && h' in m && h != h' ==> m[h] != m[h']
  }

  /** Total co-occurrence along a speaker map. */
  ghost function Weight(c: Counts, m: map<nat, nat>): nat {
    if m == map[] then 0
    else
      var h :| h in m;
      Count(c, h, m[h]) + Weight(c, m - {h})
  }

  lemma {:induction false} WeightPick(c: Counts, m: map<nat, nat>, h: nat)
    requires h in m
    ensures Weight(c, m) == Count(c, h, m[h]) + Weight(c, m - {h})
    decreases |m|
  {
    var g :| g in m && Weight(c, m) == Count(c, g, m[g]) + Weight(c, m - {g});
    if g != h {
      WeightPick(c, m - {g}, h);
      WeightPick(c, m - {h}, g);
      assert m - {g} - {h} == m - {h} - {g};
    }
  }

  // ----- reading a map row by row

  ghost function Row(c: Counts, m: map<nat, nat>, ids: seq<nat>, i: nat): nat {
    if i < |ids| && ids[i] in m then Count(c, ids[i], m[ids[i]]) else 0
  }

  ghost function Rows(c: Counts, m: map<nat, nat>, ids: seq<nat>, k: nat): nat {
    if k == 0 then 0 else Rows(c, m, ids, k - 1) + Row(c, m, ids, k - 1)
  }

  lemma {:induction false} RowsDrop(c: Counts, m: map<nat, nat>, ids: seq<nat>, h: nat, k: nat)
    requires forall i :: 0 <= i < k && i < |ids| ==> ids[i] != h
    ensures Rows(c, m, ids, k) == Rows(c, m - {h}, ids, k)
  {
    if k > 0 { RowsDrop(c, m, ids, h, k - 1); }
  }

  /** Every id whose pair counts is among the first `k` listed. */
  ghost predicate Covers(c: Counts, m: map<nat, nat>, ids: seq<nat>, k: nat) {
    forall h :: h in m && Count(c, h, m[h]) > 0 ==> Listed(ids, k, h)
  }

  ghost predicate Listed(ids: seq<nat>, k: nat, h: nat) {
    exists i :: 0 <= i < k && i < |ids| && ids[i] == h
  }

  lemma CoversLess(c: Counts, m: map<nat, nat>, ids: seq<nat>, k: nat)
    requires k > 0 && Covers(c, m, ids, k)
    ensures k - 1 < |ids| && ids[k - 1] in m ==> Covers(c, m - {ids[k - 1]}, ids, k - 1)
    ensures !(k - 1 < |ids| && ids[k - 1] in m) ==> Covers(c, m, ids, k - 1)
  {
    forall h | Listed(ids, k, h) && (k - 1 < |ids| ==> ids[k - 1] != h) ensures Listed(ids, k - 1, h) {
    }
  }

  lemma {:induction false} NothingCovered(c: Counts, m: map<nat, nat>, ids: seq<nat>)
    requires Covers(c, m, ids, 0)
    ensures Weight(c, m) == 0
    decreases |m|
  {
    if m != map[] {
      var h :| h in m;
      WeightPick(c, m, h);
      NothingCovered(c, m - {h}, ids);
    }
  }

  /** Summing over the sorted ids sees every pair that counts. */
  lemma {:induction false} WeightByRows(c: Counts, m: map<nat, nat>, ids: seq<nat>, k: nat)
    requires Distinct(ids) && Covers(c, m, ids, k)
    ensures Weight(c, m) == Rows(c, m, ids, k)
    decreases k
  {
    if k == 0 {
      NothingCovered(c, m, ids);
    } else {
      CoversLess(c, m, ids, k);
      if k - 1 < |ids| && ids[k - 1] in m {
        var h := ids[k - 1];
        WeightPick(c, m, h);
        WeightByRows(c, m - {h}, ids, k - 1);
        RowsDrop(c, m, ids, h, k - 1);
      } else {
        WeightByRows(c, m, ids, k - 1);
      }
    }
  }

  // ----- the padded square

  ghost function Padded(c: Counts, hs: seq<nat>, rs: seq<nat>, n: nat): Matrix {
    seq(n, i => seq(n, j => if 0 <= i < |hs| && 0 <= j < |rs| then Count(c, hs[i], rs[j]) as real else 0.0))
  }

  /** `t` says, row by row, where `m` goes among the listed ids. */
  ghost predicate Places(c: Counts, m: map<nat, nat>, hs: seq<nat>, rs: seq<nat>, t: seq<nat>, n: nat) {
    && |t| == n
    && forall i :: 0 <= i < n ==>
        (if t[i] < n && i < |hs| && t[i] < |rs| then Count(c, hs[i], rs[t[i]]) else 0) == Row(c, m, hs, i)
  }

  lemma {:induction false} GainIsRows(c: Counts, m: map<nat, nat>, hs: seq<nat>, rs: seq<nat>, t: seq<nat>, n: nat,
      k: nat)
    requires Places(c, m, hs, rs, t, n) && k <= n
    ensures Gain(Padded(c, hs, rs, n), t, n, k) == Rows(c, m, hs, k) as real
  {
    if k > 0 { GainIsRows(c, m, hs, rs, t, n, k - 1); }
  }

  /** Every pair that counts is between listed ids. */
  ghost predicate Spans(c: Counts, hs: seq<nat>, rs: seq<nat>) {
    Distinct(hs) && forall h, r :: Count(c, h, r) > 0 ==> h in hs && r in rs
  }

  /** Any one-to-one map is a partial map of the padded square with the same weight. */
  lemma Place(c: Counts, m: map<nat, nat>, hs: seq<nat>, rs: seq<nat>, n: nat) returns (t: seq<nat>)
    requires OneToOne(m) && n >= |hs| && n >= |rs| && Spans(c, hs, rs)
    ensures IsPartial(t, n) && Places(c, m, hs, rs, t, n)
  {
    t := seq(n, i requires 0 <= i < n =>
      if i < |hs| && hs[i] in m && m[hs[i]] in rs then PositionOf(rs, m[hs[i]]) else n);
    forall i, j | 0 <= i < j < n && t[i] < n ensures t[i] != t[j] {
      assert hs[i] in m && rs[t[i]] == m[hs[i]];
    }
  }

  ghost predicate Best(c: Counts, mapping: map<nat, nat>) {
    forall m :: OneToOne(m) ==> Weight(c, m) <= Weight(c, mapping)
  }

  lemma SpansCovers(c: Counts, m: map<nat, nat>, hs: seq<nat>, rs: seq<nat>, n: nat)
    requires Spans(c, hs, rs) && n >= |hs|
    ensures Covers(c, m, hs, n)
  {
    forall h | h in m && Count(c, h, m[h]) > 0 ensures Listed(hs, n, h) {
      assert h in hs;
    }
  }

  /** An optimal padded assignment, read as a map, is the best of all one-to-one maps. */
  lemma AssignmentIsBest(c: Counts, hs: seq<nat>, rs: seq<nat>, n: nat, cost: Matrix, base: real, s: seq<nat>,
      mapping: map<nat, nat>)
    requires Spans(c, hs, rs) && n >= |hs| && n >= |rs|
    requires Complement(cost, Padded(c, hs, rs, n), n, base) && Optimal(cost, n, s)
    requires Places(c, mapping, hs, rs, s, n)
    ensures Best(c, mapping)
  {
    var w := Padded(c, hs, rs, n);
    forall m | OneToOne(m) ensures Weight(c, m) <= Weight(c, mapping) {
      var t := Place(c, m, hs, rs, n);
      CheapestGathersMost(cost, w, n, base, s, t);
      GainIsRows(c, m, hs, rs, t, n, n);
      GainIsRows(c, mapping, hs, rs, s, n, n);
      SpansCovers(c, m, hs, rs, n);
      SpansCovers(c, mapping, hs, rs, n);
      WeightByRows(c, m, hs, n);
      WeightByRows(c, mapping, hs, n);
    }
  }

  lemma KeysSpan(c: Counts, hs: seq<nat>, rs: seq<nat>)
    requires Lists(hs, HypIds(c)) && Lists(rs, RefIds(c))
    ensures Spans(c, hs, rs)
  {
    forall h, r | Count(c, h, r) > 0 ensures h in hs && r in rs {
      assert (h, r) in c;
      assert h in HypIds(c) && r in RefIds(c);
    }
  }

  method BinarySearch(ids: seq<nat>, x: nat) returns (at: Option<nat>)
    requires forall i, j :: 0 <= i < j < |ids| ==> ids[i] < ids[j]
    ensures at.None? ==> x !in ids
    ensures at.Some? ==> at.value < |ids| && ids[at.value] == x
  {
    var lo, hi := 0, |ids|;
    while lo < hi
      invariant 0 <= lo <= hi <= |ids|
      invariant forall i :: 0 <= i < |ids| && !(lo <= i < hi) ==> ids[i] != x
    {
      var mid := (lo + hi) / 2;
      if ids[mid] == x {
        return Some(mid);
      } else if ids[mid] < x {
        lo := mid + 1;
      } else {
        hi := mid;
      }
    }
    at := None;
  }

  /** What cell (i, j) holds while the pairs in `todo` are still to be filled in. */
  ghost function Cell(c: Counts, hs: seq<nat>, rs: seq<nat>, todo: set<(nat, nat)>, i: nat, j: nat): real {
    if i < |hs| && j < |rs| && (hs[i], rs[j]) !in todo then -(Count(c, hs[i], rs[j]) as real) else 0.0
  }

  /** The cells whose pair is no longer in `todo` hold minus their count; the rest are 0. */
  ghost predicate Filled(c: Counts, hs: seq<nat>, rs: seq<nat>, n: nat, todo: set<(nat, nat)>, cost: Matrix) {
    Square(cost, n) && forall i: nat, j: nat :: i < n && j < n ==> cost[i][j] == Cell(c, hs, rs, todo, i, j)
  }

  lemma FillOne(c: Counts, hs: seq<nat>, rs: seq<nat>, n: nat, todo: set<(nat, nat)>, cost: Matrix, i: nat, j: nat)
    requires Filled(c, hs, rs, n, todo, cost) && Distinct(hs) && Distinct(rs)
    requires i < |hs| <= n && j < |rs| <= n && (hs[i], rs[j]) in c
    ensures Filled(c, hs, rs, n, todo - {(hs[i], rs[j])}, cost[i := cost[i][j := -(c[(hs[i], rs[j])] as real)]])
  {
  }

  lemma AllFilled(c: Counts, hs: seq<nat>, rs: seq<nat>, n: nat, cost: Matrix)
    requires Filled(c, hs, rs, n, {}, cost)
    ensures Complement(cost, Padded(c, hs, rs, n), n, 0.0)
  {
  }

  /** `cost = -count`, padding cells 0. */
  method CostMatrix(c: Counts, hs: seq<nat>, rs: seq<nat>, n: nat) returns (cost: Matrix)
    requires Lists(hs, HypIds(c)) && Lists(rs, RefIds(c))
    requires n >= |hs| && n >= |rs|
    ensures Complement(cost, Padded(c, hs, rs, n), n, 0.0)
  {
    cost := seq(n, _ => seq(n, _ => 0.0));
    var todo := c.Keys;
    while todo != {}
      invariant todo <= c.Keys && Filled(c, hs, rs, n, todo, cost)
      decreases |todo|
    {
      var k :| k in todo;
      var i := BinarySearch(hs, k.0);
      var j := BinarySearch(rs, k.1);
      assert k.0 in hs && k.1 in rs;
      if i.Some? && j.Some? {
        FillOne(c, hs, rs, n, todo, cost, i.value, j.value);
        cost := cost[i.value := cost[i.value][j.value := -(c[k] as real)]];
      }
      todo := todo - {k};
    }
    AllFilled(c, hs, rs, n, cost);
  }

  /** `mapping` holds the real, co-occurring pairs of the first `row` rows; `at`
      remembers each id's row. */
  ghost predicate Kept(c: Counts, hs: seq<nat>, rs: seq<nat>, s: seq<nat>, row: nat, mapping: map<nat, nat>,
      at: map<nat, nat>) {
    && row <= |s| && mapping.Keys == at.Keys
    && (forall h :: h in mapping ==>
          at[h] < row && at[h] < |hs| && hs[at[h]] == h && s[at[h]] < |rs| && mapping[h] == rs[s[at[h]]])
    && (forall h :: h in mapping ==> Count(c, h, mapping[h]) > 0)
    && (forall i :: 0 <= i < row && i < |hs| && s[i] < |rs| && Count(c, hs[i], rs[s[i]]) > 0 ==> hs[i] in mapping)
  }

  lemma KeepOne(c: Counts, hs: seq<nat>, rs: seq<nat>, s: seq<nat>, row: nat, mapping: map<nat, nat>, at: map<nat, nat>)
    requires Distinct(hs) && Kept(c, hs, rs, s, row, mapping, at)
    requires row < |s| && row < |hs| && s[row] < |rs| && Count(c, hs[row], rs[s[row]]) > 0
    ensures Kept(c, hs, rs, s, row + 1, mapping[hs[row] := rs[s[row]]], at[hs[row] := row])
  {
  }

  lemma KeptIsOneToOne(c: Counts, hs: seq<nat>, rs: seq<nat>, s: seq<nat>, mapping: map<nat, nat>, at: map<nat, nat>)
    requires Distinct(hs) && Distinct(rs) && Distinct(s) && Kept(c, hs, rs, s, |s|, mapping, at)
    ensures OneToOne(mapping)
  {
    forall h, h' | h in mapping && h' in mapping && h != h' ensures mapping[h] != mapping[h'] {
      assert at[h] != at[h'];
      assert s[at[h]] != s[at[h']];
    }
  }

  lemma KeptPlaces(c: Counts, hs: seq<nat>, rs: seq<nat>, s: seq<nat>, n: nat, mapping: map<nat, nat>,
      at: map<nat, nat>)
    requires Distinct(hs) && IsPermutation(s, n) && Kept(c, hs, rs, s, n, mapping, at)
    ensures Places(c, mapping, hs, rs, s, n)
  {
    forall i | 0 <= i < n && i < |hs| && hs[i] in mapping ensures at[hs[i]] == i {
      assert hs[at[hs[i]]] == hs[i];
    }
  }

  /** Keep the assigned pairs that are real and co-occur. */
  method KeepReal(c: Counts, hs: seq<nat>, rs: seq<nat>, n: nat, s: seq<nat>) returns (mapping: map<nat, nat>)
    requires Distinct(hs) && Distinct(rs) && n >= |hs| && IsPermutation(s, n)
    ensures Places(c, mapping, hs, rs, s, n)
    ensures forall h :: h in mapping ==> h in hs && Count(c, h, mapping[h]) > 0
    ensures OneToOne(mapping)
  {
    mapping := map[];
    ghost var at: map<nat, nat> := map[];
    for row := 0 to n
      invariant Kept(c, hs, rs, s, row, mapping, at)
    {
      if row < |hs| && s[row] < |rs| && Count(c, hs[row], rs[s[row]]) > 0 {
        KeepOne(c, hs, rs, s, row, mapping, at);
        mapping := mapping[hs[row] := rs[s[row]]];
        at := at[hs[row] := row];
      }
    }
    KeptIsOneToOne(c, hs, rs, s, mapping, at);
    KeptPlaces(c, hs, rs, s, n, mapping, at);
  }

  /** Optimal one-to-one map from hypothesis to reference ids. */
  method MapMaxCooccurrence(c: Counts) returns (mapping: map<nat, nat>)
    ensures OneToOne(mapping)
    ensures forall h :: h in mapping ==> Count(c, h, mapping[h]) > 0
    ensures Best(c, mapping)
  {
    if c == map[] {
      mapping := map[];
      forall m | OneToOne(m) ensures Weight(c, m) <= Weight(c, mapping) {
        NothingCovered(c, m, []);
      }
      return;
    }
    var hs := SortedIds(HypIds(c));
    var rs := SortedIds(RefIds(c));
    var n := if |hs| > |rs| then |hs| else |rs|;
    var cost := CostMatrix(c, hs, rs, n);
    var solved := Hungarian.Solve(cost);
    var s := solved.value;
    mapping := KeepReal(c, hs, rs, n, s);
    KeysSpan(c, hs, rs);
    AssignmentIsBest(c, hs, rs, n, cost, 0.0, s, mapping);
  }
}

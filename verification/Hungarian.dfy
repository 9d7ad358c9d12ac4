/** Kuhn-Munkres minimum-cost assignment: row and column potentials, a shortest
    augmenting path per row, and the walk back that flips the matching. Rows and
    columns are numbered from 1; index 0 is the sentinel column. Costs are exact
    reals. */
module Hungarian {
  import opened Assignment
  import opened Wrappers

  datatype Ext = Fin(val: real) | Inf

  predicate Less(a: Ext, b: Ext) {
    match (a, b)
    case (Fin(x), Fin(y)) => x < y
    case (Fin(_), Inf) => true
    case (Inf, _) => false
  }

  // ----- what the arrays mean

  /** `p` and `q` are inverse to each other on the matched columns and the rows
      1..i, except that nothing is claimed of column `hole`. */
  ghost predicate Linked(n: nat, i: nat, p: seq<nat>, q: seq<nat>, hole: nat) {
    && |p| == |q| == n + 1 && i <= n
    && (forall r :: 1 <= r <= i ==> q[r] <= n && q[r] != hole && p[q[r]] == r)
    && (forall j :: 0 <= j <= n && j != hole ==> p[j] <= i && (p[j] != 0 ==> q[p[j]] == j))
  }

  ghost function Slack(cost: Matrix, u: seq<real>, v: seq<real>, r: nat, j: nat): real
    requires 1 <= r <= |cost| && 1 <= j <= |cost[r - 1]| && r < |u| && j < |v|
  {
    cost[r - 1][j - 1] - u[r] - v[j]
  }

  /** No processed row has a negative slack. */
  ghost predicate Dual(cost: Matrix, n: nat, u: seq<real>, v: seq<real>, rows: nat)
    requires Square(cost, n) && |u| == |v| == n + 1 && rows <= n
  {
    forall r, j :: 1 <= r <= rows && 1 <= j <= n ==> Slack(cost, u, v, r, j) >= 0.0
  }

  /** Matched real columns, apart from `hole`, have slack zero. */
  ghost predicate TightMatch(cost: Matrix, n: nat, u: seq<real>, v: seq<real>, p: seq<nat>, hole: nat)
    requires Square(cost, n) && |u| == |v| == |p| == n + 1 && forall j :: 0 <= j <= n && j != hole ==> p[j] <= n
  {
    forall j :: 1 <= j <= n && j != hole && p[j] != 0 ==> Slack(cost, u, v, p[j], j) == 0.0
  }

  /** Rows 1..i are matched optimally: what holds between two rows of the search. */
  ghost predicate RowsDone(cost: Matrix, n: nat, i: nat, u: seq<real>, v: seq<real>, p: seq<nat>, q: seq<nat>) {
    && Square(cost, n) && |u| == |v| == n + 1
    && Linked(n, i, p, q, 0)
    && Dual(cost, n, u, v, i) && TightMatch(cost, n, u, v, p, 0)
  }

  /** The alternating tree: `used` columns hang from column 0 by tight edges
      (`way` gives the parent, `rank` the order in which they were entered). */
  ghost predicate Tree(cost: Matrix, n: nat, i: nat, u: seq<real>, v: seq<real>, p: seq<nat>,
                       used: seq<bool>, way: seq<nat>, rank: seq<nat>)
    requires Square(cost, n) && |u| == |v| == |p| == n + 1
  {
    && |used| == |way| == |rank| == n + 1
    && (forall j :: 0 <= j <= n && used[j] ==> 1 <= p[j] <= i <= n)
    && (forall j :: 1 <= j <= n && used[j] ==>
          way[j] <= n && used[way[j]] && rank[way[j]] < rank[j] && Slack(cost, u, v, p[way[j]], j) == 0.0)
  }

  /** Off the tree, `minv` is the smallest slack seen from the tree, and `way`
      the tree column that attains it. */
  ghost predicate Frontier(cost: Matrix, n: nat, i: nat, u: seq<real>, v: seq<real>, p: seq<nat>,
                           used: seq<bool>, way: seq<nat>, minv: seq<Ext>)
    requires Square(cost, n) && |u| == |v| == |p| == n + 1
  {
    && |used| == |way| == |minv| == n + 1
    && (forall j :: 0 <= j <= n && used[j] ==> 1 <= p[j] <= i <= n)
    && (forall j :: 1 <= j <= n && !used[j] ==>
          && minv[j].Fin? && way[j] <= n && used[way[j]]
          && minv[j].val == Slack(cost, u, v, p[way[j]], j))
    && (forall j, k :: 1 <= j <= n && !used[j] && 0 <= k <= n && used[k] ==>
          minv[j].Fin? && minv[j].val <= Slack(cost, u, v, p[k], j))
  }

  /** Where the search for row `i` stands before column `j0` is entered. */
  ghost predicate Searching(cost: Matrix, n: nat, i: nat, u: seq<real>, v: seq<real>, p: seq<nat>, q: seq<nat>,
                            used: seq<bool>, way: seq<nat>, rank: seq<nat>, minv: seq<Ext>, steps: nat, j0: nat) {
    && Square(cost, n) && 1 <= i <= n && |u| == |v| == |minv| == n + 1
    && Linked(n, i, p, q, n + 1) && p[0] == i
    && Tree(cost, n, i, u, v, p, used, way, rank)
    && (forall j :: 0 <= j <= n && used[j] ==> rank[j] < steps)
    && TightMatch(cost, n, u, v, p, n + 1)
    && j0 <= n && !used[j0] && (used[0] <==> j0 != 0)
    && Dual(cost, n, u, v, if used[0] then i else i - 1)
    && if used[0] then Frontier(cost, n, i, u, v, p, used, way, minv) && minv[j0] == Fin(0.0)
       else forall j :: 0 <= j <= n ==> !used[j] && minv[j] == Inf
  }

  ghost predicate Scanned(cost: Matrix, n: nat, u: seq<real>, v: seq<real>, used: seq<bool>, i0: nat, j0: nat,
                          minv: seq<Ext>, way: seq<nat>, minv': seq<Ext>, way': seq<nat>)
    requires Square(cost, n) && 1 <= i0 <= n
    requires |u| == |v| == |used| == |minv| == |way| == |minv'| == |way'| == n + 1
  {
    && (forall j :: 0 <= j <= n && (j == 0 || used[j]) ==> minv'[j] == minv[j] && way'[j] == way[j])
    && (forall j :: 1 <= j <= n && !used[j] ==>
          var cur := Slack(cost, u, v, i0, j);
          if Less(Fin(cur), minv[j]) then minv'[j] == Fin(cur) && way'[j] == j0
          else minv'[j] == minv[j] && way'[j] == way[j])
  }

  /** `j1` is an unused column of smallest `minv`, which is `delta`. */
  ghost predicate Nearest(n: nat, used: seq<bool>, minv: seq<Ext>, delta: Ext, j1: nat)
    requires |used| == |minv| == n + 1
  {
    && (forall j :: 1 <= j <= n && !used[j] ==> !Less(minv[j], delta))
    && (if j1 == 0 then delta == Inf else j1 <= n && !used[j1] && delta == minv[j1])
  }

  ghost predicate Shifted(n: nat, i: nat, u: seq<real>, v: seq<real>, used: seq<bool>, minv: seq<Ext>, delta: real,
                          q: seq<nat>, u': seq<real>, v': seq<real>, minv': seq<Ext>)
    requires |u| == |v| == |used| == |minv| == |q| == |u'| == |v'| == |minv'| == n + 1 && i <= n
    requires forall r :: 1 <= r <= i ==> q[r] <= n
  {
    ShiftedTo(n, i, u, v, used, minv, delta, q, n + 1, u', v', minv')
  }

  /** Shifted as far as the columns below `k` are concerned. */
  ghost predicate ShiftedTo(n: nat, i: nat, u: seq<real>, v: seq<real>, used: seq<bool>, minv: seq<Ext>, delta: real,
                            q: seq<nat>, k: nat, u': seq<real>, v': seq<real>, minv': seq<Ext>)
    requires |u| == |v| == |used| == |minv| == |q| == |u'| == |v'| == |minv'| == n + 1 && i <= n
    requires forall r :: 1 <= r <= i ==> q[r] <= n
  {
    && (forall r :: 1 <= r <= i ==> u'[r] == u[r] + (if q[r] < k && used[q[r]] then delta else 0.0))
    && (forall j :: 0 <= j <= n ==> v'[j] == v[j] - (if j < k && used[j] then delta else 0.0))
    && (forall j :: 0 <= j <= n ==>
          minv'[j] == if j >= k || used[j] || minv[j].Inf? then minv[j] else Fin(minv[j].val - delta))
  }

  // ----- one round of the search

  /** Relax every unused column from column `j0` and pick the one closest to the tree. */
  method Scan(cost: Matrix, n: nat, u: array<real>, v: array<real>, used: array<bool>,
              minv: array<Ext>, way: array<nat>, i0: nat, j0: nat)
    returns (delta: Ext, j1: nat)
    requires Square(cost, n) && 1 <= i0 <= n
    requires u.Length == v.Length == used.Length == minv.Length == way.Length == n + 1
    modifies minv, way
    ensures Scanned(cost, n, u[..], v[..], used[..], i0, j0, old(minv[..]), old(way[..]), minv[..], way[..])
    ensures Nearest(n, used[..], minv[..], delta, j1)
  {
    delta, j1 := Inf, 0;
    for j := 1 to n + 1
      invariant forall k :: 0 <= k <= n && (k == 0 || k >= j || used[k]) ==>
        minv[k] == old(minv[k]) && way[k] == old(way[k])
      invariant forall k :: 1 <= k < j && !used[k] ==>
        var cur := Slack(cost, u[..], v[..], i0, k);
        if Less(Fin(cur), old(minv[k])) then minv[k] == Fin(cur) && way[k] == j0
        else minv[k] == old(minv[k]) && way[k] == old(way[k])
      invariant forall k :: 1 <= k < j && !used[k] ==> !Less(minv[k], delta)
      invariant j1 == 0 ==> delta == Inf
      invariant j1 != 0 ==> j1 < j && !used[j1] && delta == minv[j1]
    {
      if !used[j] {
        var cur := cost[i0 - 1][j - 1] - u[i0] - v[j];
        if Less(Fin(cur), minv[j]) {
          minv[j] := Fin(cur);
          way[j] := j0;
        }
        if Less(minv[j], delta) {
          delta := minv[j];
          j1 := j;
        }
      }
    }
  }

  /** One more column: a used one's row is hit now, and no other column hits that row. */
  lemma ShiftColumn(n: nat, i: nat, p: seq<nat>, u: seq<real>, v: seq<real>, used: seq<bool>, minv: seq<Ext>,
                    delta: real, q: seq<nat>, k: nat, u': seq<real>, v': seq<real>, minv': seq<Ext>)
    requires |u| == |v| == |used| == |minv| == |u'| == |v'| == |minv'| == n + 1
    requires Linked(n, i, p, q, n + 1) && k <= n && (used[k] ==> p[k] != 0)
    requires ShiftedTo(n, i, u, v, used, minv, delta, q, k, u', v', minv')
    ensures used[k] ==> ShiftedTo(n, i, u, v, used, minv, delta, q, k + 1,
      u'[p[k] := u'[p[k]] + delta], v'[k := v'[k] - delta], minv')
    ensures !used[k] && minv'[k].Fin? ==>
      ShiftedTo(n, i, u, v, used, minv, delta, q, k + 1, u', v', minv'[k := Fin(minv'[k].val - delta)])
    ensures !used[k] && minv'[k].Inf? ==> ShiftedTo(n, i, u, v, used, minv, delta, q, k + 1, u', v', minv')
  {
  }

  /** Shift the potentials of the tree by `delta`. The in-place `u[p[j]] += delta`
      hits every tree row once because `p` is one-to-one on the tree. */
  method UpdatePotentials(n: nat, ghost i: nat, u: array<real>, v: array<real>, p: array<nat>,
                          used: array<bool>, minv: array<Ext>, delta: real, ghost q: seq<nat>)
    requires u.Length == v.Length == p.Length == used.Length == minv.Length == n + 1 && u != v
    requires Linked(n, i, p[..], q, n + 1)
    requires forall j :: 0 <= j <= n && used[j] ==> p[j] != 0
    modifies u, v, minv
    ensures Shifted(n, i, old(u[..]), old(v[..]), used[..], old(minv[..]), delta, q, u[..], v[..], minv[..])
  {
    ghost var u0, v0, minv0, P, U := u[..], v[..], minv[..], p[..], used[..];
    for j := 0 to n + 1
      invariant used[..] == U && p[..] == P
      invariant ShiftedTo(n, i, u0, v0, U, minv0, delta, q, j, u[..], v[..], minv[..])
    {
      ghost var u1, v1, minv1 := u[..], v[..], minv[..];
      ShiftColumn(n, i, P, u0, v0, U, minv0, delta, q, j, u1, v1, minv1);
      if used[j] {
        u[p[j]] := u[p[j]] + delta;
        v[j] := v[j] - delta;
        assert u[..] == u1[P[j] := u1[P[j]] + delta] && v[..] == v1[j := v1[j] - delta];
      } else if minv[j].Fin? {
        minv[j] := Fin(minv[j].val - delta);
        assert minv[..] == minv1[j := Fin(minv1[j].val - delta)];
      }
    }
  }

  /** Entering `j0` keeps the tree; scanning from it rebuilds the frontier. */
  lemma ScanKeeps(cost: Matrix, n: nat, i: nat, u: seq<real>, v: seq<real>, p: seq<nat>, q: seq<nat>,
                  used: seq<bool>, way: seq<nat>, rank: seq<nat>, minv: seq<Ext>, steps: nat, j0: nat,
                  minv': seq<Ext>, way': seq<nat>)
    requires Searching(cost, n, i, u, v, p, q, used, way, rank, minv, steps, j0) && p[j0] != 0
    requires |minv'| == |way'| == n + 1
    requires Scanned(cost, n, u, v, used[j0 := true], p[j0], j0, minv, way, minv', way')
    ensures Tree(cost, n, i, u, v, p, used[j0 := true], way', rank[j0 := steps])
    ensures Frontier(cost, n, i, u, v, p, used[j0 := true], way', minv')
  {
  }

  /** After the shift the slack of any processed cell is still non-negative. */
  lemma ShiftKeepsSlack(cost: Matrix, n: nat, i: nat, u: seq<real>, v: seq<real>, p: seq<nat>, q: seq<nat>,
                        used: seq<bool>, way: seq<nat>, minv: seq<Ext>, delta: real,
                        u': seq<real>, v': seq<real>, r: nat, j: nat)
    requires Square(cost, n) && 1 <= i <= n && |u| == |v| == |u'| == |v'| == n + 1
    requires Linked(n, i, p, q, n + 1) && p[0] == i && 1 <= r <= i && 1 <= j <= n
    requires Frontier(cost, n, i, u, v, p, used, way, minv) && used[0]
    requires Dual(cost, n, u, v, i - 1)
    requires Dual(cost, n, u, v, i) || forall k :: 1 <= k <= n ==> !used[k]
    requires forall k :: 1 <= k <= n && !used[k] ==> minv[k].val >= delta
    requires exists k :: 1 <= k <= n && !used[k] && minv[k].val == delta
    requires u'[r] == u[r] + (if used[q[r]] then delta else 0.0)
    requires v'[j] == v[j] - (if used[j] then delta else 0.0)
    ensures Slack(cost, u', v', r, j) >= 0.0
  {
    var c := q[r];
    assert p[c] == r;
    if used[c] && !used[j] {
      assert minv[j].val <= Slack(cost, u, v, p[c], j);
    } else if !used[c] {
      assert c != 0 && r != i;
      assert Slack(cost, u, v, r, j) >= 0.0;
      if used[j] {
        var f :| 1 <= f <= n && !used[f] && minv[f].val == delta;
        assert minv[f].val == Slack(cost, u, v, p[way[f]], f) >= 0.0;
      }
    }
  }

  /** Shifting by the smallest frontier slack keeps the tree tight and no slack
      negative. `delta` may be negative only while the tree has no real column. */
  lemma ShiftKeeps(cost: Matrix, n: nat, i: nat, u: seq<real>, v: seq<real>, p: seq<nat>, q: seq<nat>,
                   used: seq<bool>, way: seq<nat>, rank: seq<nat>, minv: seq<Ext>, delta: real,
                   u': seq<real>, v': seq<real>, minv': seq<Ext>)
    requires Square(cost, n) && 1 <= i <= n && |u| == |v| == |minv| == |u'| == |v'| == |minv'| == n + 1
    requires Linked(n, i, p, q, n + 1) && p[0] == i
    requires Tree(cost, n, i, u, v, p, used, way, rank) && used[0]
    requires Frontier(cost, n, i, u, v, p, used, way, minv)
    requires TightMatch(cost, n, u, v, p, n + 1) && Dual(cost, n, u, v, i - 1)
    requires Dual(cost, n, u, v, i) || forall j :: 1 <= j <= n ==> !used[j]
    requires forall j :: 1 <= j <= n && !used[j] ==> minv[j].val >= delta
    requires exists j :: 1 <= j <= n && !used[j] && minv[j].val == delta
    requires Shifted(n, i, u, v, used, minv, delta, q, u', v', minv')
    ensures Tree(cost, n, i, u', v', p, used, way, rank)
    ensures Frontier(cost, n, i, u', v', p, used, way, minv')
    ensures TightMatch(cost, n, u', v', p, n + 1) && Dual(cost, n, u', v', i)
  {
    forall r, j | 1 <= r <= i && 1 <= j <= n ensures Slack(cost, u', v', r, j) >= 0.0 {
      ShiftKeepsSlack(cost, n, i, u, v, p, q, used, way, minv, delta, u', v', r, j);
    }
  }

  /** A free column makes the scan's minimum finite. */
  lemma ScanReaches(cost: Matrix, n: nat, u: seq<real>, v: seq<real>, used: seq<bool>, i0: nat, j0: nat,
                    minv: seq<Ext>, way: seq<nat>, minv': seq<Ext>, way': seq<nat>, delta: Ext, j1: nat, free: nat)
    requires Square(cost, n) && 1 <= i0 <= n
    requires |u| == |v| == |used| == |minv| == |way| == |minv'| == |way'| == n + 1
    requires Scanned(cost, n, u, v, used, i0, j0, minv, way, minv', way') && Nearest(n, used, minv', delta, j1)
    requires 1 <= free <= n && !used[free]
    ensures delta.Fin?
  {
    assert minv'[free].Fin?;
  }

  /** Scanning finds a real column to go to, since one is still free. */
  lemma ScanFinds(cost: Matrix, n: nat, i: nat, u: seq<real>, v: seq<real>, p: seq<nat>, used: seq<bool>,
                  way: seq<nat>, minv: seq<Ext>, delta: Ext, j1: nat, free: nat)
    requires Square(cost, n) && |u| == |v| == |p| == n + 1
    requires Frontier(cost, n, i, u, v, p, used, way, minv) && used[0]
    requires 1 <= free <= n && p[free] == 0
    requires Nearest(n, used, minv, delta, j1)
    ensures 1 <= j1 <= n && delta.Fin? && !used[j1] && minv[j1] == delta
    ensures forall j :: 1 <= j <= n && !used[j] ==> minv[j].val >= delta.val
  {
    assert !used[free] && minv[free].Fin?;
  }

  /** After the shift the search stands before `j1`. */
  lemma ShiftSearches(cost: Matrix, n: nat, i: nat, p: seq<nat>, q: seq<nat>, rank: seq<nat>, steps: nat,
                      u: seq<real>, v: seq<real>, used: seq<bool>, way: seq<nat>, minv: seq<Ext>,
                      delta: real, j1: nat, u': seq<real>, v': seq<real>, minv': seq<Ext>)
    requires Square(cost, n) && 1 <= i <= n && |u| == |v| == |minv| == |u'| == |v'| == |minv'| == n + 1
    requires Linked(n, i, p, q, n + 1) && p[0] == i
    requires Tree(cost, n, i, u, v, p, used, way, rank) && used[0]
    requires forall j :: 0 <= j <= n && used[j] ==> rank[j] < steps
    requires Frontier(cost, n, i, u, v, p, used, way, minv)
    requires TightMatch(cost, n, u, v, p, n + 1) && Dual(cost, n, u, v, i - 1)
    requires Dual(cost, n, u, v, i) || forall j :: 1 <= j <= n ==> !used[j]
    requires 1 <= j1 <= n && !used[j1] && minv[j1] == Fin(delta)
    requires forall j :: 1 <= j <= n && !used[j] ==> minv[j].val >= delta
    requires Shifted(n, i, u, v, used, minv, delta, q, u', v', minv')
    ensures Searching(cost, n, i, u', v', p, q, used, way, rank, minv', steps, j1)
  {
    ShiftKeeps(cost, n, i, u, v, p, q, used, way, rank, minv, delta, u', v', minv');
  }

  /** The round as a whole, on the array contents before, between and after. */
  lemma RoundKeeps(cost: Matrix, n: nat, i: nat, p: seq<nat>, q: seq<nat>, rank: seq<nat>, steps: nat, j0: nat,
      free: nat,
                   u: seq<real>, v: seq<real>, used: seq<bool>, way: seq<nat>, minv: seq<Ext>,
                   way': seq<nat>, minv': seq<Ext>, delta: Ext, j1: nat,
                   u': seq<real>, v': seq<real>, minv'': seq<Ext>)
    requires Searching(cost, n, i, u, v, p, q, used, way, rank, minv, steps, j0) && p[j0] != 0
    requires 1 <= free <= n && p[free] == 0
    requires |minv'| == |way'| == |u'| == |v'| == |minv''| == n + 1
    requires Scanned(cost, n, u, v, used[j0 := true], p[j0], j0, minv, way, minv', way')
    requires Nearest(n, used[j0 := true], minv', delta, j1)
    ensures delta.Fin?
    ensures Shifted(n, i, u, v, used[j0 := true], minv', delta.val, q, u', v', minv'') ==>
      Searching(cost, n, i, u', v', p, q, used[j0 := true], way', rank[j0 := steps], minv'', steps + 1, j1)
  {
    var used1, rank1 := used[j0 := true], rank[j0 := steps];
    ScanKeeps(cost, n, i, u, v, p, q, used, way, rank, minv, steps, j0, minv', way');
    ScanFinds(cost, n, i, u, v, p, used1, way', minv', delta, j1, free);
    if Shifted(n, i, u, v, used1, minv', delta.val, q, u', v', minv'') {
      ShiftSearches(cost, n, i, p, q, rank1, steps + 1, u, v, used1, way', minv', delta.val, j1, u', v', minv'');
    }
  }

  /** One round: enter `j0`, scan, shift, and name the next column. */
  method Round(cost: Matrix, n: nat, ghost i: nat, u: array<real>, v: array<real>, p: array<nat>, way: array<nat>,
               used: array<bool>, minv: array<Ext>, ghost q: seq<nat>, ghost rank: seq<nat>, ghost steps: nat,
               ghost free: nat, j0: nat)
    returns (j1: nat, ghost rank': seq<nat>)
    requires u.Length == v.Length == p.Length == way.Length == used.Length == minv.Length == n + 1
    requires u != v && p != way
    requires Searching(cost, n, i, u[..], v[..], p[..], q, used[..], way[..], rank, minv[..], steps, j0)
    requires p[j0] != 0 && 1 <= free <= n && p[free] == 0
    modifies u, v, way, used, minv
    ensures used[..] == old(used[..])[j0 := true]
    ensures Searching(cost, n, i, u[..], v[..], p[..], q, used[..], way[..], rank', minv[..], steps + 1, j1)
  {
    ghost var P, u0, v0, used0, way0, minv0 := p[..], u[..], v[..], used[..], way[..], minv[..];
    used[j0] := true;
    rank' := rank[j0 := steps];
    var i0 := p[j0];
    var delta;
    delta, j1 := Scan(cost, n, u, v, used, minv, way, i0, j0);
    ghost var way1, minv1 := way[..], minv[..];
    assert used[..] == used0[j0 := true] && u[..] == u0 && v[..] == v0 && p[..] == P;
    ScanReaches(cost, n, u0, v0, used[..], i0, j0, minv0, way0, minv1, way1, delta, j1, free);
    UpdatePotentials(n, i, u, v, p, used, minv, delta.val, q);
    assert used[..] == used0[j0 := true] && way[..] == way1 && p[..] == P;
    RoundKeeps(cost, n, i, P, q, rank, steps, j0, free, u0, v0, used0, way0, minv0, way1, minv1, delta, j1, u[..],
      v[..], minv[..]);
  }

  /** Flip the matching along the tree path that ends in the free column `start`. */
  method WalkBack(ghost cost: Matrix, n: nat, ghost i: nat, ghost u: seq<real>, ghost v: seq<real>,
                  p: array<nat>, way: array<nat>, ghost used: seq<bool>, ghost rank: seq<nat>, ghost steps: nat,
                  ghost q: seq<nat>, start: nat)
    returns (ghost q': seq<nat>)
    requires Square(cost, n) && |u| == |v| == p.Length == way.Length == n + 1 && p != way
    requires Linked(n, i, p[..], q, n + 1) && TightMatch(cost, n, u, v, p[..], n + 1) && Dual(cost, n, u, v, i)
    requires Tree(cost, n, i, u, v, p[..], used, way[..], rank)
    requires forall j :: 0 <= j <= n && used[j] ==> rank[j] < steps
    requires 1 <= start <= n && p[start] == 0
    requires way[start] <= n && used[way[start]] && Slack(cost, u, v, p[way[start]], start) == 0.0
    modifies p
    ensures RowsDone(cost, n, i, u, v, p[..], q')
  {
    var j0 := start;
    q' := q;
    ghost var b := steps;
    assert forall j :: 0 <= j <= n ==> p[..][j] == p[j];
    while true
      invariant 1 <= j0 <= n
      invariant Linked(n, i, p[..], q', j0) && TightMatch(cost, n, u, v, p[..], j0)
      invariant way[j0] <= n && used[way[j0]] && rank[way[j0]] < b
      invariant used[j0] ==> rank[j0] == b
      invariant Slack(cost, u, v, old(p[..])[way[j0]], j0) == 0.0
      invariant forall k :: 0 <= k <= n && used[k] && rank[k] < b ==> p[k] == old(p[..])[k]
      decreases b
    {
      var j1 := way[j0];
      ghost var before := p[..];
      p[j0] := p[j1];
      assert p[..] == before[j0 := before[j1]];
      q' := q'[before[j1] := j0];
      j0 := j1;
      b := rank[j1];
      if j0 == 0 {
        break;
      }
    }
  }

  lemma StartSearch(cost: Matrix, n: nat, i: nat, u: seq<real>, v: seq<real>, p: seq<nat>, q: seq<nat>,
                    used: seq<bool>, way: seq<nat>, rank: seq<nat>, minv: seq<Ext>)
    requires 1 <= i <= n && RowsDone(cost, n, i - 1, u, v, p, q)
    requires |used| == |way| == |rank| == |minv| == n + 1
    requires forall j :: 0 <= j <= n ==> !used[j] && minv[j] == Inf
    ensures Searching(cost, n, i, u, v, p[0 := i], q[i := 0], used, way, rank, minv, 0, 0)
  {
  }

  /** The rows entered so far (shifted to start at 0), in order. */
  ghost predicate Entered(n: nat, i: nat, q: seq<nat>, used: seq<bool>, seen: seq<nat>)
    requires |q| == |used| == n + 1 && i <= n && forall r :: 1 <= r <= i ==> q[r] <= n
  {
    Distinct(seen) && forall k :: 0 <= k < |seen| ==> seen[k] < i && used[q[seen[k] + 1]]
  }

  lemma EnterOne(n: nat, i: nat, p: seq<nat>, q: seq<nat>, used: seq<bool>, seen: seq<nat>, j0: nat)
    requires Linked(n, i, p, q, n + 1) && |used| == n + 1 && Entered(n, i, q, used, seen)
    requires j0 <= n && !used[j0] && p[j0] != 0
    ensures Entered(n, i, q, used[j0 := true], seen + [p[j0] - 1]) && |seen| < i
  {
    DistinctBelow(seen + [p[j0] - 1], i);
  }

  /** The search with the rows entered so far. */
  ghost predicate Growing(cost: Matrix, n: nat, i: nat, u: seq<real>, v: seq<real>, p: seq<nat>, q: seq<nat>,
                          used: seq<bool>, way: seq<nat>, rank: seq<nat>, minv: seq<Ext>, seen: seq<nat>, j0: nat) {
    Searching(cost, n, i, u, v, p, q, used, way, rank, minv, |seen|, j0) && Entered(n, i, q, used, seen)
  }

  /** Grow the tree of row `i` until it reaches a free column, at most `i` rounds. */
  method GrowTree(cost: Matrix, n: nat, ghost i: nat, u: array<real>, v: array<real>, p: array<nat>, way: array<nat>,
                  used: array<bool>, minv: array<Ext>, ghost q: seq<nat>, ghost free: nat)
    returns (j0: nat, ghost rank: seq<nat>, ghost steps: nat)
    requires u.Length == v.Length == p.Length == way.Length == used.Length == minv.Length == n + 1
    requires u != v && p != way
    requires Searching(cost, n, i, u[..], v[..], p[..], q, used[..], way[..], seq(n + 1, _ => 0), minv[..], 0, 0)
    requires 1 <= free <= n && p[free] == 0
    modifies u, v, way, used, minv
    ensures Searching(cost, n, i, u[..], v[..], p[..], q, used[..], way[..], rank, minv[..], steps, j0)
    ensures j0 != 0 && p[j0] == 0 && 1 <= steps <= i
  {
    ghost var P := p[..];
    assert P[0] == i;
    j0, rank, steps := 0, seq(n + 1, _ => 0), 0;
    ghost var seen: seq<nat> := [];
    while true
      invariant P == p[..] && Growing(cost, n, i, u[..], v[..], P, q, used[..], way[..], rank, minv[..], seen, j0)
      invariant steps == |seen| && P[j0] != 0
      decreases i - steps
    {
      ghost var used0 := used[..];
      EnterOne(n, i, P, q, used0, seen, j0);
      seen := seen + [P[j0] - 1];
      j0, rank := Round(cost, n, i, u, v, p, way, used, minv, q, rank, steps, free, j0);
      assert p[..] == P;
      steps := steps + 1;
      if p[j0] == 0 {
        break;
      }
    }
  }

  /** Fewer matched rows than columns leave a column free. */
  lemma FreeColumn(n: nat, i: nat, p: seq<nat>, q: seq<nat>) returns (f: nat)
    requires i < n && Linked(n, i, p, q, 0)
    ensures 1 <= f <= n && p[f] == 0
  {
    if forall j :: 1 <= j <= n ==> p[j] != 0 {
      var rows := seq(n, j requires 0 <= j < n => (p[j + 1] - 1) as nat);
      DistinctBelow(rows, i);
      assert false;
    }
    f :| 1 <= f <= n && p[f] == 0;
  }

  /** Add row `i` to the matching. */
  method AddRow(cost: Matrix, n: nat, i: nat, u: array<real>, v: array<real>, p: array<nat>, way: array<nat>,
                ghost q: seq<nat>)
    returns (ghost q': seq<nat>, ghost steps: nat)
    requires Square(cost, n) && 1 <= i <= n
    requires u.Length == v.Length == p.Length == way.Length == n + 1 && u != v && p != way
    requires RowsDone(cost, n, i - 1, u[..], v[..], p[..], q)
    modifies u, v, p, way
    ensures RowsDone(cost, n, i, u[..], v[..], p[..], q')
    ensures 1 <= steps <= i
  {
    ghost var free := FreeColumn(n, i - 1, p[..], q);
    ghost var rank;
    p[0] := i;
    assert p[..] == old(p[..])[0 := i];
    var minv := new Ext[n + 1](_ => Inf);
    var used := new bool[n + 1](_ => false);
    StartSearch(cost, n, i, u[..], v[..], old(p[..]), q, used[..], way[..], seq(n + 1, _ => 0), minv[..]);
    var j0;
    j0, rank, steps := GrowTree(cost, n, i, u, v, p, way, used, minv, q[i := 0], free);
    q' := WalkBack(cost, n, i, u[..], v[..], p, way, used[..], rank, steps, q[i := 0], j0);
  }

  // ----- solve

  lemma ReadOutIsPermutation(n: nat, p: seq<nat>, q: seq<nat>, s: seq<nat>)
    requires Linked(n, n, p, q, 0)
    requires |s| == n && forall r :: 1 <= r <= n ==> s[r - 1] + 1 == q[r]
    ensures IsPermutation(s, n)
  {
    forall i: nat | i < n ensures s[i] < n {
      ReadOutAt(n, p, q, s, i);
    }
    forall i: nat, j: nat | i < j < n ensures s[i] != s[j] {
      ReadOutAt(n, p, q, s, i);
      ReadOutAt(n, p, q, s, j);
    }
  }

  lemma ReadOutAt(n: nat, p: seq<nat>, q: seq<nat>, s: seq<nat>, k: nat)
    requires Linked(n, n, p, q, 0) && k < n
    requires |s| == n && forall r :: 1 <= r <= n ==> s[r - 1] + 1 == q[r]
    ensures s[k] < n && p[s[k] + 1] == k + 1
  {
    var r := k + 1;
    assert q[r] == s[k] + 1;
  }

  lemma DualIsFeasible(cost: Matrix, n: nat, u: seq<real>, v: seq<real>)
    requires Square(cost, n) && |u| == |v| == n + 1 && Dual(cost, n, u, v, n)
    ensures Feasible(cost, u[1..], v[1..])
  {
    forall i, j | 0 <= i < n && 0 <= j < n ensures u[1..][i] + v[1..][j] <= cost[i][j] {
      assert Slack(cost, u, v, i + 1, j + 1) >= 0.0;
    }
  }

  /** Feasible potentials, tight on the matching, certify the read-out assignment. */
  lemma DoneIsOptimal(cost: Matrix, n: nat, u: seq<real>, v: seq<real>, p: seq<nat>, q: seq<nat>, s: seq<nat>)
    requires RowsDone(cost, n, n, u, v, p, q)
    requires |s| == n && forall r :: 1 <= r <= n ==> s[r - 1] + 1 == q[r]
    ensures Optimal(cost, n, s)
  {
    var a, b := u[1..], v[1..];
    DualIsFeasible(cost, n, u, v);
    ReadOutIsPermutation(n, p, q, s);
    forall i | 0 <= i < n ensures a[i] + b[s[i]] == cost[i][s[i]] {
      assert p[q[i + 1]] == i + 1 && q[i + 1] == s[i] + 1;
      assert Slack(cost, u, v, i + 1, s[i] + 1) == 0.0;
    }
    forall t: seq<nat> | IsPermutation(t, n) ensures Cost(cost, s, n) <= Cost(cost, t, n) {
      TightIsOptimal(cost, a, b, s, t);
    }
  }

  /** Match every row: `p[j]` is the row that ends in column `j`. */
  method MatchAll(cost: Matrix, n: nat)
    returns (p: array<nat>, ghost u': seq<real>, ghost v': seq<real>, ghost q: seq<nat>)
    requires Square(cost, n)
    ensures fresh(p) && RowsDone(cost, n, n, u', v', p[..], q)
  {
    var u := new real[n + 1](_ => 0.0);
    var v := new real[n + 1](_ => 0.0);
    p := new nat[n + 1](_ => 0);
    var way := new nat[n + 1](_ => 0);
    q := seq(n + 1, _ => 0);
    ghost var steps;
    for i := 1 to n + 1
      invariant fresh(p) && fresh(u) && fresh(v) && fresh(way)
      invariant RowsDone(cost, n, i - 1, u[..], v[..], p[..], q)
    {
      q, steps := AddRow(cost, n, i, u, v, p, way, q);
    }
    u', v' := u[..], v[..];
  }

  /** `p` and `s` are the same matching, by column and by row. */
  ghost predicate Columns(n: nat, p: seq<nat>, s: seq<nat>) {
    && |p| == n + 1 && |s| == n
    && (forall j :: 1 <= j <= n ==> p[j] <= n) && (forall k :: 0 <= k < n ==> s[k] < n)
    && (forall j, k :: 1 <= j <= n && 0 <= k < n ==> (s[k] + 1 == j <==> p[j] == k + 1))
  }

  lemma DoneColumns(n: nat, p: seq<nat>, q: seq<nat>, s: seq<nat>)
    requires Linked(n, n, p, q, 0)
    requires |s| == n && forall r :: 1 <= r <= n ==> s[r - 1] + 1 == q[r]
    ensures Columns(n, p, s)
  {
    forall j, k | 1 <= j <= n && 0 <= k < n ensures s[k] + 1 == j <==> p[j] == k + 1 {
      var r := k + 1;
      assert p[q[r]] == r;
    }
    forall k | 0 <= k < n ensures s[k] < n {
      var r := k + 1;
      assert q[r] <= n;
    }
  }

  /** An optimal matching by columns, with its row form. */
  method AssignAll(cost: Matrix, n: nat) returns (p: array<nat>, ghost s: seq<nat>)
    requires Square(cost, n)
    ensures fresh(p) && Columns(n, p[..], s) && Optimal(cost, n, s)
  {
    ghost var u, v, q;
    p, u, v, q := MatchAll(cost, n);
    s := seq(n, k requires 0 <= k < n => (q[k + 1] - 1) as nat);
    DoneColumns(n, p[..], q, s);
    DoneIsOptimal(cost, n, u, v, p[..], q, s);
  }

  method ReadOut(n: nat, p: array<nat>, ghost s: seq<nat>) returns (r: seq<nat>)
    requires p.Length == n + 1 && Columns(n, p[..], s)
    ensures r == s
  {
    var result := new nat[n](_ => 0);
    for j := 1 to n + 1
      invariant forall k :: 0 <= k < n && s[k] + 1 < j ==> result[k] == s[k]
    {
      assert p[..][j] == p[j];
      if p[j] > 0 {
        result[p[j] - 1] := j - 1;
      }
    }
    r := result[..];
  }

  /** A minimum-cost assignment of rows to columns, or `None` when `cost` is not square. */
  method Solve(cost: Matrix) returns (r: Option<seq<nat>>)
    ensures r.Some? <==> Square(cost, |cost|)
    ensures r.Some? ==> Optimal(cost, |cost|, r.value)
  {
    var n := |cost|;
    if n == 0 {
      return Some([]);
    }
    if exists i :: 0 <= i < n && |cost[i]| != n {
      return None;
    }
    var p;
    ghost var s;
    p, s := AssignAll(cost, n);
    var result := ReadOut(n, p, s);
    r := Some(result);
  }
}

/** Square assignment problems: permutations, their cost, the weak-duality bound
    that certifies an optimum, and the extension of a partial one-to-one map to a
    whole permutation. */
module Assignment {

  type Matrix = seq<seq<real>>

  ghost predicate Square(cost: Matrix, n: nat) {
    |cost| == n && forall i :: 0 <= i < n ==> |cost[i]| == n
  }

  ghost predicate Distinct(s: seq<nat>) {
    forall i, j :: 0 <= i < j < |s| ==> s[i] != s[j]
  }

  /** `s` sends each of the `n` rows to its own column. */
  ghost predicate IsPermutation(s: seq<nat>, n: nat) {
    |s| == n && (forall i :: 0 <= i < n ==> s[i] < n) && Distinct(s)
  }

  /** Cost of the first `k` rows of the assignment `s`. */
  ghost function Cost(cost: Matrix, s: seq<nat>, k: nat): real
    requires k <= |s| && k <= |cost|
    requires forall i :: 0 <= i < k ==> s[i] < |cost[i]|
  {
    if k == 0 then 0.0 else Cost(cost, s, k - 1) + cost[k - 1][s[k - 1]]
  }

  ghost function Sum(f: seq<real>): real {
    if f == [] then 0.0 else Sum(f[..|f| - 1]) + f[|f| - 1]
  }

  /** Sum of `f` over the positions listed in `s`. */
  ghost function SumAt(f: seq<real>, s: seq<nat>): real
    requires forall i :: 0 <= i < |s| ==> s[i] < |f|
  {
    if s == [] then 0.0 else SumAt(f, s[..|s| - 1]) + f[s[|s| - 1]]
  }

  // ----- permutations hit every position

  /** `s` with position `k` dropped. */
  ghost function Without(s: seq<nat>, k: nat): (r: seq<nat>)
    requires k < |s|
    ensures |r| == |s| - 1
    ensures forall i :: 0 <= i < |r| ==> r[i] == s[if i < k then i else i + 1]
  {
    s[..k] + s[k + 1..]
  }

  lemma WithoutMax(s: seq<nat>, n: nat, k: nat)
    requires Distinct(s) && k < |s| && n > 0 && s[k] == n - 1
    requires forall i :: 0 <= i < |s| ==> s[i] < n
    ensures Distinct(Without(s, k)) && forall i :: 0 <= i < |s| - 1 ==> Without(s, k)[i] < n - 1
  {
  }

  lemma {:induction false} DistinctBelow(s: seq<nat>, n: nat)
    requires Distinct(s) && forall i :: 0 <= i < |s| ==> s[i] < n
    ensures |s| <= n
    ensures |s| == n ==> forall x: nat :: x < n ==> x in s
    decreases n
  {
    if s == [] {
      return;
    }
    assert s[0] < n;
    if n - 1 in s {
      var k :| 0 <= k < |s| && s[k] == n - 1;
      var rest := Without(s, k);
      WithoutMax(s, n, k);
      DistinctBelow(rest, n - 1);
      if |s| == n {
        forall x: nat | x < n ensures x in s {
          if x < n - 1 {
            assert x in rest;
            var i :| 0 <= i < |rest| && rest[i] == x;
            assert s[if i < k then i else i + 1] == x;
          }
        }
      }
    } else {
      assert forall i :: 0 <= i < |s| ==> s[i] in s && s[i] < n - 1;
      DistinctBelow(s, n - 1);
    }
  }

  lemma {:induction false} SumAtSplit(f: seq<real>, a: seq<nat>, b: seq<nat>)
    requires forall i :: 0 <= i < |a| ==> a[i] < |f|
    requires forall i :: 0 <= i < |b| ==> b[i] < |f|
    ensures forall i :: 0 <= i < |a + b| ==> (a + b)[i] < |f|
    ensures SumAt(f, a + b) == SumAt(f, a) + SumAt(f, b)
    decreases |b|
  {
    if b == [] {
      assert a + b == a;
    } else {
      assert (a + b)[..|a + b| - 1] == a + b[..|b| - 1];
      SumAtSplit(f, a, b[..|b| - 1]);
    }
  }

  lemma SumAtRemove(f: seq<real>, s: seq<nat>, k: nat)
    requires k < |s| && forall i :: 0 <= i < |s| ==> s[i] < |f|
    ensures forall i :: 0 <= i < |Without(s, k)| ==> Without(s, k)[i] < |f|
    ensures SumAt(f, s) == SumAt(f, Without(s, k)) + f[s[k]]
  {
    var one := [s[k]];
    assert one[..0] == [];
    assert s == (s[..k] + one) + s[k + 1..];
    SumAtSplit(f, s[..k] + one, s[k + 1..]);
    SumAtSplit(f, s[..k], one);
    SumAtSplit(f, s[..k], s[k + 1..]);
  }

  lemma {:induction false} SumAtShorter(f: seq<real>, s: seq<nat>, n: nat)
    requires n <= |f| && forall i :: 0 <= i < |s| ==> s[i] < n
    ensures SumAt(f, s) == SumAt(f[..n], s)
  {
    if s != [] { SumAtShorter(f, s[..|s| - 1], n); }
  }

  lemma MaxPosition(s: seq<nat>, n: nat) returns (k: nat)
    requires IsPermutation(s, n) && n > 0
    ensures k < n && s[k] == n - 1 && IsPermutation(Without(s, k), n - 1)
  {
    DistinctBelow(s, n);
    assert n - 1 in s;
    k :| 0 <= k < n && s[k] == n - 1;
    WithoutMax(s, n, k);
  }

  /** Visiting every position in any order gives the plain sum. */
  lemma {:induction false} SumAtPermutation(f: seq<real>, s: seq<nat>)
    requires IsPermutation(s, |f|)
    ensures SumAt(f, s) == Sum(f)
    decreases |f|
  {
    var n := |f|;
    if n > 0 {
      var k := MaxPosition(s, n);
      SumAtRemove(f, s, k);
      SumAtShorter(f, Without(s, k), n - 1);
      SumAtPermutation(f[..n - 1], Without(s, k));
    }
  }

  // ----- weak duality

  /** Row and column potentials that never exceed the cost of a cell. */
  ghost predicate Feasible(cost: Matrix, a: seq<real>, b: seq<real>)
    requires Square(cost, |a|) && |b| == |a|
  {
    forall i, j :: 0 <= i < |a| && 0 <= j < |a| ==> a[i] + b[j] <= cost[i][j]
  }

  lemma {:induction false} PrefixBound(cost: Matrix, a: seq<real>, b: seq<real>, s: seq<nat>, k: nat)
    requires |b| == |a| && Square(cost, |a|) && Feasible(cost, a, b) && IsPermutation(s, |a|) && k <= |a|
    ensures Sum(a[..k]) + SumAt(b, s[..k]) <= Cost(cost, s, k)
    ensures (forall i :: 0 <= i < k ==> a[i] + b[s[i]] == cost[i][s[i]])
            ==> Sum(a[..k]) + SumAt(b, s[..k]) == Cost(cost, s, k)
  {
    if k > 0 {
      PrefixBound(cost, a, b, s, k - 1);
      assert a[..k][..k - 1] == a[..k - 1] && s[..k][..k - 1] == s[..k - 1];
    }
  }

  /** An assignment whose cells are all tight under feasible potentials costs no
      more than any other assignment. */
  lemma TightIsOptimal(cost: Matrix, a: seq<real>, b: seq<real>, s: seq<nat>, other: seq<nat>)
    requires |b| == |a| && Square(cost, |a|) && Feasible(cost, a, b)
    requires IsPermutation(s, |a|) && IsPermutation(other, |a|)
    requires forall i :: 0 <= i < |a| ==> a[i] + b[s[i]] == cost[i][s[i]]
    ensures Cost(cost, s, |a|) <= Cost(cost, other, |a|)
  {
    var n := |a|;
    PrefixBound(cost, a, b, s, n);
    PrefixBound(cost, a, b, other, n);
    assert s[..n] == s && other[..n] == other;
    SumAtPermutation(b, s);
    SumAtPermutation(b, other);
  }

  ghost predicate Optimal(cost: Matrix, n: nat, s: seq<nat>)
    requires Square(cost, n)
  {
    IsPermutation(s, n) &&
    forall t: seq<nat> :: IsPermutation(t, n) ==> Cost(cost, s, n) <= Cost(cost, t, n)
  }

  // ----- partial one-to-one maps inside a padded square

  /** Row `i` goes to column `t[i]`, or nowhere when `t[i] == n`; no column is used twice. */
  ghost predicate IsPartial(t: seq<nat>, n: nat) {
    |t| == n && (forall i :: 0 <= i < n ==> t[i] <= n)
    && forall i, j :: 0 <= i < j < n && t[i] < n ==> t[i] != t[j]
  }

  /** Weight gathered by the first `k` rows. */
  ghost function Gain(w: Matrix, t: seq<nat>, n: nat, k: nat): real
    requires Square(w, n) && |t| == n && k <= n
  {
    if k == 0 then 0.0 else Gain(w, t, n, k - 1) + (if t[k - 1] < n then w[k - 1][t[k - 1]] else 0.0)
  }

  ghost function PositionOf(t: seq<nat>, c: nat): (k: nat)
    requires c in t
    ensures k < |t| && t[k] == c
  {
    var k :| 0 <= k < |t| && t[k] == c;
    k
  }

  lemma AllColumnsTaken(t: seq<nat>, n: nat)
    requires IsPartial(t, n) && forall c: nat :: c < n ==> c in t
    ensures forall i :: 0 <= i < n ==> t[i] < n
  {
    var at: seq<nat> := seq(n, c requires 0 <= c < n => PositionOf(t, c));
    assert forall c :: 0 <= c < n ==> at[c] < n && t[at[c]] == c;
    DistinctBelow(at, n);
    forall i | 0 <= i < n ensures t[i] < n {
      assert i in at;
    }
  }

  lemma FreeSlot(t: seq<nat>, n: nat, i: nat) returns (x: nat)
    requires IsPartial(t, n) && i < n && t[i] == n
    ensures x < n && x !in t
  {
    if forall c: nat :: c < n ==> c in t {
      AllColumnsTaken(t, n);
      assert false;
    }
    x :| x < n && x !in t;
  }

  /** Every partial one-to-one map is part of a permutation. */
  lemma Extend(t: seq<nat>, n: nat) returns (s: seq<nat>)
    requires IsPartial(t, n)
    ensures IsPermutation(s, n) && forall i :: 0 <= i < n && t[i] < n ==> s[i] == t[i]
  {
    s := t;
    for k := 0 to n
      invariant IsPartial(s, n)
      invariant forall i :: 0 <= i < k ==> s[i] < n
      invariant forall i :: 0 <= i < n && t[i] < n ==> s[i] == t[i]
    {
      if s[k] == n {
        var x := FreeSlot(s, n, k);
        s := s[k := x];
      }
    }
  }

  lemma {:induction false} GainMonotone(w: Matrix, t: seq<nat>, s: seq<nat>, n: nat, k: nat)
    requires Square(w, n) && |t| == |s| == n && k <= n
    requires forall i, j :: 0 <= i < n && 0 <= j < n ==> w[i][j] >= 0.0
    requires forall i :: 0 <= i < n && t[i] < n ==> s[i] == t[i]
    ensures Gain(w, t, n, k) <= Gain(w, s, n, k)
  {
    if k > 0 { GainMonotone(w, t, s, n, k - 1); }
  }

  /** `cost` prices every cell at `base` less its weight. */
  ghost predicate Complement(cost: Matrix, w: Matrix, n: nat, base: real) {
    Square(cost, n) && Square(w, n)
    && forall i, j :: 0 <= i < n && 0 <= j < n ==> cost[i][j] == base - w[i][j]
  }

  lemma {:induction false} CostIsGain(cost: Matrix, w: Matrix, s: seq<nat>, n: nat, base: real, k: nat)
    requires Complement(cost, w, n, base) && IsPermutation(s, n) && k <= n
    ensures Cost(cost, s, k) == base * k as real - Gain(w, s, n, k)
  {
    if k > 0 {
      CostIsGain(cost, w, s, n, base, k - 1);
      assert base * k as real == base * (k - 1) as real + base;
    }
  }

  /** A cheapest permutation under the complement cost gathers the most weight
      of all partial one-to-one maps. */
  lemma CheapestGathersMost(cost: Matrix, w: Matrix, n: nat, base: real, s: seq<nat>, t: seq<nat>)
    requires Complement(cost, w, n, base) && Optimal(cost, n, s) && IsPartial(t, n)
    requires forall i, j :: 0 <= i < n && 0 <= j < n ==> w[i][j] >= 0.0
    ensures Gain(w, t, n, n) <= Gain(w, s, n, n)
  {
    var full := Extend(t, n);
    GainMonotone(w, t, full, n, n);
    CostIsGain(cost, w, full, n, base, n);
    CostIsGain(cost, w, s, n, base, n);
  }
}

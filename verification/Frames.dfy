/** The frame model behind the diarization error rate: per-frame sets of active
    reference and system speakers, and the sums that a one-to-one speaker map
    turns into correct frames. */
module Frames {
  import opened Cooccurrence
  import opened Sorting

  /** Active reference and system speakers per frame, and which frames count. */
  datatype Grid = Grid(R: seq<set<nat>>, H: seq<set<nat>>, scored: seq<bool>) {
    ghost predicate Valid() {
      |R| == |H| == |scored|
    }
  }

  /** Reference speakers whose mapped system speaker is active too. */
  ghost function Right(R: set<nat>, H: set<nat>, m: map<nat, nat>): set<nat> {
    set r | r in R && r in m && m[r] in H
  }

  function Excess(a: nat, b: nat): nat {
    if a > b then a - b else 0
  }

  function Lesser(a: nat, b: nat): nat {
    if a < b then a else b
  }

  // ----- sums over the first k frames

  ghost function RefSum(g: Grid, k: nat): nat
    requires g.Valid() && k <= |g.R|
  {
    if k == 0 then 0 else RefSum(g, k - 1) + if g.scored[k - 1] then |g.R[k - 1]| else 0
  }

  ghost function MissSum(g: Grid, k: nat): nat
    requires g.Valid() && k <= |g.R|
  {
    if k == 0 then 0 else MissSum(g, k - 1) + if g.scored[k - 1] then Excess(|g.R[k - 1]|, |g.H[k - 1]|) else 0
  }

  ghost function FalseAlarmSum(g: Grid, k: nat): nat
    requires g.Valid() && k <= |g.R|
  {
    if k == 0 then 0 else FalseAlarmSum(g, k - 1) + if g.scored[k - 1] then Excess(|g.H[k - 1]|, |g.R[k - 1]|) else 0
  }

  ghost function RightSum(g: Grid, m: map<nat, nat>, k: nat): nat
    requires g.Valid() && k <= |g.R|
  {
    if k == 0 then 0 else RightSum(g, m, k - 1) + if g.scored[k - 1] then |Right(g.R[k - 1], g.H[k - 1], m)| else 0
  }

  ghost function ConfusionSum(g: Grid, m: map<nat, nat>, k: nat): int
    requires g.Valid() && k <= |g.R|
  {
    if k == 0 then 0 else ConfusionSum(g, m, k - 1) + if g.scored[k - 1] then Confused(g.R[k - 1], g.H[k - 1], m) else 0
  }

  ghost function Confused(R: set<nat>, H: set<nat>, m: map<nat, nat>): int {
    Lesser(|R|, |H|) - |Right(R, H, m)|
  }

  // ----- one frame

  /** A one-to-one image is no smaller than its source. */
  lemma {:induction false} ImageSize(s: set<nat>, t: set<nat>, f: map<nat, nat>)
    requires s <= f.Keys && OneToOne(f) && forall x :: x in s ==> f[x] in t
    ensures |s| <= |t|
    decreases |s|
  {
    if s != {} {
      var x :| x in s;
      ImageSize(s - {x}, t - {f[x]}, f);
    }
  }

  lemma RightFits(R: set<nat>, H: set<nat>, m: map<nat, nat>)
    requires OneToOne(m)
    ensures |Right(R, H, m)| <= Lesser(|R|, |H|)
  {
    SubsetSize(Right(R, H, m), R);
    ImageSize(Right(R, H, m), H, m);
  }

  // ----- whole grids

  /** Every reference frame is right, confused or missed, and no term is negative. */
  lemma {:induction false} Decompose(g: Grid, m: map<nat, nat>, k: nat)
    requires g.Valid() && k <= |g.R| && OneToOne(m)
    ensures RefSum(g, k) == RightSum(g, m, k) + MissSum(g, k) + ConfusionSum(g, m, k)
    ensures ConfusionSum(g, m, k) >= 0
  {
    if k > 0 {
      Decompose(g, m, k - 1);
      RightFits(g.R[k - 1], g.H[k - 1], m);
    }
  }

  /** `h` looks at the same frames as `g`, but scores fewer of them. */
  ghost predicate Narrower(g: Grid, h: Grid) {
    && g.Valid() && h.Valid() && h.R == g.R && h.H == g.H
    && forall f :: 0 <= f < |g.R| && h.scored[f] ==> g.scored[f]
  }

  /** Under any fixed speaker map, scoring fewer frames lowers every term. */
  lemma {:induction false} NarrowerIsLess(g: Grid, h: Grid, m: map<nat, nat>, k: nat)
    requires Narrower(g, h) && k <= |g.R| && OneToOne(m)
    ensures RefSum(h, k) <= RefSum(g, k) && MissSum(h, k) <= MissSum(g, k)
    ensures FalseAlarmSum(h, k) <= FalseAlarmSum(g, k) && ConfusionSum(h, m, k) <= ConfusionSum(g, m, k)
  {
    if k > 0 {
      NarrowerIsLess(g, h, m, k - 1);
      RightFits(g.R[k - 1], g.H[k - 1], m);
    }
  }

  /** `m` loses the fewest frames to confusion among all one-to-one maps. */
  ghost predicate LeastConfusion(g: Grid, m: map<nat, nat>)
    requires g.Valid()
  {
    OneToOne(m) && forall m' :: OneToOne(m') ==> ConfusionSum(g, m, |g.R|) <= ConfusionSum(g, m', |g.R|)
  }

  // ----- exchanging the sums over frames and over mapped pairs

  function Both(R: set<nat>, H: set<nat>, r: nat, h: nat): nat {
    if r in R && h in H then 1 else 0
  }

  /** Scored frames, among the first `k`, in which both speakers are active. */
  ghost function Shared(g: Grid, r: nat, h: nat, k: nat): nat
    requires g.Valid() && k <= |g.R|
  {
    if k == 0 then 0
    else Shared(g, r, h, k - 1) + if g.scored[k - 1] then Both(g.R[k - 1], g.H[k - 1], r, h) else 0
  }

  ghost function Table(g: Grid, rows: nat, cols: nat, k: nat): Counts
    requires g.Valid() && k <= |g.R|
  {
    map r: nat, h: nat | r < rows && h < cols :: (r, h) := Shared(g, r, h, k)
  }

  /** All speakers lie below `rows` and `cols`. */
  ghost predicate Indexed(g: Grid, rows: nat, cols: nat) {
    && g.Valid()
    && (forall f, r :: 0 <= f < |g.R| && r in g.R[f] ==> r < rows)
    && (forall f, h :: 0 <= f < |g.H| && h in g.H[f] ==> h < cols)
  }

  lemma {:induction false} WeightOfNothing(c: Counts, m: map<nat, nat>)
    requires forall r, h :: Count(c, r, h) == 0
    ensures Weight(c, m) == 0
    decreases |m|
  {
    if m != map[] {
      var r :| r in m;
      WeightPick(c, m, r);
      WeightOfNothing(c, m - {r});
    }
  }

  /** `c'` counts one more frame than `c`. */
  ghost predicate OneMore(c: Counts, c': Counts, R: set<nat>, H: set<nat>) {
    forall r, h :: Count(c', r, h) == Count(c, r, h) + Both(R, H, r, h)
  }

  lemma RightPick(R: set<nat>, H: set<nat>, m: map<nat, nat>, r: nat)
    requires r in m
    ensures |Right(R, H, m)| == |Right(R, H, m - {r})| + Both(R, H, r, m[r])
  {
    if r in R && m[r] in H {
      assert Right(R, H, m) == Right(R, H, m - {r}) + {r};
    } else {
      assert Right(R, H, m) == Right(R, H, m - {r});
    }
  }

  /** Counting one more frame adds its right speakers to the weight. */
  lemma {:induction false} WeightOfFrame(c: Counts, c': Counts, R: set<nat>, H: set<nat>, m: map<nat, nat>)
    requires OneMore(c, c', R, H)
    ensures Weight(c', m) == Weight(c, m) + |Right(R, H, m)|
    decreases |m|
  {
    if m == map[] {
      assert Right(R, H, m) == {};
    } else {
      var r :| r in m;
      WeightPick(c, m, r);
      WeightPick(c', m, r);
      WeightOfFrame(c, c', R, H, m - {r});
      RightPick(R, H, m, r);
      assert Count(c', r, m[r]) == Count(c, r, m[r]) + Both(R, H, r, m[r]);
    }
  }

  lemma TableGrows(g: Grid, rows: nat, cols: nat, k: nat)
    requires Indexed(g, rows, cols) && 0 < k <= |g.R|
    ensures if g.scored[k - 1]
      then OneMore(Table(g, rows, cols, k - 1), Table(g, rows, cols, k), g.R[k - 1], g.H[k - 1])
            else Table(g, rows, cols, k - 1) == Table(g, rows, cols, k)
  {
    var c, c' := Table(g, rows, cols, k - 1), Table(g, rows, cols, k);
    if g.scored[k - 1] {
      forall r, h ensures Count(c', r, h) == Count(c, r, h) + Both(g.R[k - 1], g.H[k - 1], r, h) {
      }
    }
  }

  /** The weight of a map in the co-occurrence table is its number of right frames. */
  lemma {:induction false} Exchange(g: Grid, rows: nat, cols: nat, m: map<nat, nat>, k: nat)
    requires Indexed(g, rows, cols) && k <= |g.R|
    ensures Weight(Table(g, rows, cols, k), m) == RightSum(g, m, k)
  {
    if k == 0 {
      WeightOfNothing(Table(g, rows, cols, 0), m);
    } else {
      Exchange(g, rows, cols, m, k - 1);
      TableGrows(g, rows, cols, k);
      if g.scored[k - 1] {
        WeightOfFrame(Table(g, rows, cols, k - 1), Table(g, rows, cols, k), g.R[k - 1], g.H[k - 1], m);
      }
    }
  }

  /** Maximising the co-occurrence weight minimises confusion. */
  lemma BestConfusesLeast(g: Grid, rows: nat, cols: nat, m: map<nat, nat>)
    requires Indexed(g, rows, cols) && OneToOne(m) && Best(Table(g, rows, cols, |g.R|), m)
    ensures LeastConfusion(g, m)
  {
    var n := |g.R|;
    forall m' | OneToOne(m') ensures ConfusionSum(g, m, n) <= ConfusionSum(g, m', n) {
      Exchange(g, rows, cols, m, n);
      Exchange(g, rows, cols, m', n);
      Decompose(g, m, n);
      Decompose(g, m', n);
    }
  }

  // ----- renaming

  /** `h` is `g` with reference speakers renamed by `a` and system speakers by `b`. */
  ghost predicate Renamed(g: Grid, h: Grid, a: map<nat, nat>, b: map<nat, nat>) {
    && g.Valid() && h.Valid() && |g.R| == |h.R| && g.scored == h.scored
    && OneToOne(a) && OneToOne(b)
    && (forall f :: 0 <= f < |g.R| ==> g.R[f] <= a.Keys && h.R[f] == Image(a, g.R[f]))
    && (forall f :: 0 <= f < |g.H| ==> g.H[f] <= b.Keys && h.H[f] == Image(b, g.H[f]))
  }

  ghost function Image(a: map<nat, nat>, s: set<nat>): set<nat> {
    set x | x in s && x in a :: a[x]
  }

  lemma {:induction false} ImageHasSize(a: map<nat, nat>, s: set<nat>)
    requires OneToOne(a) && s <= a.Keys
    ensures |Image(a, s)| == |s|
    decreases |s|
  {
    if s == {} {
      assert Image(a, s) == {};
    } else {
      var x :| x in s;
      ImageHasSize(a, s - {x});
      assert Image(a, s) == Image(a, s - {x}) + {a[x]};
    }
  }

  ghost function Inverse(a: map<nat, nat>): (r: map<nat, nat>)
    requires OneToOne(a)
    ensures OneToOne(r) && (forall x :: x in a ==> a[x] in r && r[a[x]] == x)
    ensures forall y :: y in r ==> r[y] in a && a[r[y]] == y
  {
    map x | x in a :: a[x] := x
  }

  /** The same pairing, in the new names. */
  ghost function Carry(m: map<nat, nat>, a: map<nat, nat>, b: map<nat, nat>): map<nat, nat>
    requires OneToOne(a)
  {
    var back := Inverse(a);
    map x | x in back && back[x] in m && m[back[x]] in b :: b[m[back[x]]]
  }

  lemma CarryIsOneToOne(m: map<nat, nat>, a: map<nat, nat>, b: map<nat, nat>)
    requires OneToOne(m) && OneToOne(a) && OneToOne(b)
    ensures OneToOne(Carry(m, a, b))
  {
  }

  lemma CarryPoint(R: set<nat>, H: set<nat>, m: map<nat, nat>, a: map<nat, nat>, b: map<nat, nat>, r: nat)
    requires OneToOne(a) && OneToOne(b) && H <= b.Keys && r in R && r in a
    ensures a[r] in Right(Image(a, R), Image(b, H), Carry(m, a, b)) <==> r in Right(R, H, m)
  {
    var m', x := Carry(m, a, b), a[r];
    assert Inverse(a)[x] == r;
    if r in m && m[r] in b {
      assert b[m[r]] in Image(b, H) <==> m[r] in H;
    } else {
      assert x !in m';
    }
  }

  lemma CarryFrame(R: set<nat>, H: set<nat>, m: map<nat, nat>, a: map<nat, nat>, b: map<nat, nat>)
    requires OneToOne(a) && OneToOne(b) && R <= a.Keys && H <= b.Keys
    ensures |Right(Image(a, R), Image(b, H), Carry(m, a, b))| == |Right(R, H, m)|
  {
    var before, after := Right(R, H, m), Right(Image(a, R), Image(b, H), Carry(m, a, b));
    forall r | r in before ensures a[r] in after {
      CarryPoint(R, H, m, a, b, r);
    }
    ImageSize(before, after, a);
    forall x | x in after ensures x in Inverse(a) && Inverse(a)[x] in before {
      var r :| r in R && a[r] == x;
      CarryPoint(R, H, m, a, b, r);
    }
    ImageSize(after, before, Inverse(a));
  }

  /** Frame by frame, `h` under `m'` has the same sizes as `g` under `m`. */
  ghost predicate SameSizes(g: Grid, h: Grid, m: map<nat, nat>, m': map<nat, nat>) {
    && g.Valid() && h.Valid() && |g.R| == |h.R|
    && forall f :: 0 <= f < |g.R| ==>
        g.scored[f] == h.scored[f] && |h.R[f]| == |g.R[f]| && |h.H[f]| == |g.H[f]|
        && |Right(h.R[f], h.H[f], m')| == |Right(g.R[f], g.H[f], m)|
  }

  lemma {:induction false} SameSums(g: Grid, h: Grid, m: map<nat, nat>, m': map<nat, nat>, k: nat)
    requires SameSizes(g, h, m, m') && k <= |g.R|
    ensures RefSum(h, k) == RefSum(g, k) && MissSum(h, k) == MissSum(g, k)
    ensures FalseAlarmSum(h, k) == FalseAlarmSum(g, k)
    ensures ConfusionSum(h, m', k) == ConfusionSum(g, m, k)
  {
    if k > 0 {
      SameSums(g, h, m, m', k - 1);
    }
  }

  lemma RenamedSizes(g: Grid, h: Grid, a: map<nat, nat>, b: map<nat, nat>, m: map<nat, nat>)
    requires Renamed(g, h, a, b)
    ensures SameSizes(g, h, m, Carry(m, a, b))
  {
    var m' := Carry(m, a, b);
    forall f | 0 <= f < |g.R|
      ensures |h.R[f]| == |g.R[f]| && |h.H[f]| == |g.H[f]|
      ensures |Right(h.R[f], h.H[f], m')| == |Right(g.R[f], g.H[f], m)|
    {
      CarryFrame(g.R[f], g.H[f], m, a, b);
      ImageHasSize(a, g.R[f]);
      ImageHasSize(b, g.H[f]);
    }
  }

  /** Renaming changes no sum, as long as the speaker map is renamed along. */
  lemma RenamedSums(g: Grid, h: Grid, a: map<nat, nat>, b: map<nat, nat>, m: map<nat, nat>, k: nat)
    requires Renamed(g, h, a, b) && k <= |g.R|
    ensures RefSum(h, k) == RefSum(g, k) && MissSum(h, k) == MissSum(g, k)
    ensures FalseAlarmSum(h, k) == FalseAlarmSum(g, k)
    ensures ConfusionSum(h, Carry(m, a, b), k) == ConfusionSum(g, m, k)
  {
    RenamedSizes(g, h, a, b, m);
    SameSums(g, h, m, Carry(m, a, b), k);
  }

  lemma RenamedBack(g: Grid, h: Grid, a: map<nat, nat>, b: map<nat, nat>)
    requires Renamed(g, h, a, b)
    ensures Renamed(h, g, Inverse(a), Inverse(b))
  {
  }

  /** The least confusion is the same on both sides of a renaming. */
  lemma RenamedLeast(g: Grid, h: Grid, a: map<nat, nat>, b: map<nat, nat>, m: map<nat, nat>, m': map<nat, nat>)
    requires Renamed(g, h, a, b) && LeastConfusion(g, m) && LeastConfusion(h, m')
    ensures ConfusionSum(g, m, |g.R|) == ConfusionSum(h, m', |h.R|)
  {
    RenamedSums(g, h, a, b, m, |g.R|);
    CarryIsOneToOne(m, a, b);
    RenamedBack(g, h, a, b);
    RenamedSums(h, g, Inverse(a), Inverse(b), m', |h.R|);
    CarryIsOneToOne(m', Inverse(a), Inverse(b));
  }
}

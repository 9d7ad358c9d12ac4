/** The cross-engine diarization error rate scorer: frame masks, co-occurrence
    counts, the optimal speaker map, and the accumulated error terms. Speaker
    names are opaque keys, here natural numbers; times are exact reals. */
module Der {
  import opened Assignment
  import Hungarian
  import opened Cooccurrence
  import opened Frames
  import opened Sorting

  const FRAME := 0.010

  datatype Turn = Turn(start: real, end: real, spk: nat)

  /** Python's `round`: to the nearest integer, ties to even. */
  function Round(x: real): int {
    var below := x.Floor;
    var part := x - below as real;
    if part < 0.5 || (part == 0.5 && below % 2 == 0) then below else below + 1
  }

  lemma RoundMonotone(x: real, y: real)
    requires x <= y
    ensures Round(x) <= Round(y)
  {
  }

  function FrameOf(t: real): int {
    Round(t / FRAME)
  }

  // ----- what a file score means

  function Latest(turns: seq<Turn>): real {
    if turns == [] then 0.0
    else
      var rest := Latest(turns[..|turns| - 1]);
      if turns[|turns| - 1].end > rest then turns[|turns| - 1].end else rest
  }

  function FrameCount(ref: seq<Turn>, hyp: seq<Turn>): nat {
    FrameTotal(if Latest(ref) > Latest(hyp) then Latest(ref) else Latest(hyp))
  }

  function FrameTotal(end: real): nat {
    var k := FrameOf(end) + 1;
    if k < 0 then 0 else k
  }

  ghost function Speakers(turns: seq<Turn>): set<nat> {
    set t | t in turns :: t.spk
  }

  ghost function Active(turns: seq<Turn>, f: int): set<nat> {
    set t | t in turns && FrameOf(t.start) <= f < FrameOf(t.end) :: t.spk
  }

  ghost predicate NearBoundary(turns: seq<Turn>, half: int, f: int) {
    exists t :: t in turns &&
      (FrameOf(t.start) - half <= f <= FrameOf(t.start) + half || FrameOf(t.end) - half <= f <= FrameOf(t.end) + half)
  }

  /** A frame counts when it is outside every collar and, with `skip`, has at most one reference speaker. */
  ghost predicate Scored(ref: seq<Turn>, collar: real, skip: bool, f: int) {
    && !(collar > 0.0 && NearBoundary(ref, FrameOf(collar), f))
    && !(skip && |Active(ref, f)| > 1)
  }

  ghost function GridOf(ref: seq<Turn>, hyp: seq<Turn>, collar: real, skip: bool): (g: Grid)
    ensures g.Valid()
  {
    var n := FrameCount(ref, hyp);
    Grid(seq(n, f => Active(ref, f)), seq(n, f => Active(hyp, f)), seq(n, f => Scored(ref, collar, skip, f)))
  }

  datatype FileScore = FileScore(scoredRef: real, miss: real, falseAlarm: real, confusion: real,
                                 refSpeakers: nat, hypSpeakers: nat)
  {
    function Der(): real {
      if scoredRef > 0.0 then 100.0 * (miss + falseAlarm + confusion) / scoredRef else 0.0
    }
  }

  /** `fs` is a score of the two turn lists: its terms are the frame sums under a
      one-to-one speaker map that confuses the fewest scored frames. */
  ghost predicate IsScore(ref: seq<Turn>, hyp: seq<Turn>, collar: real, skip: bool, fs: FileScore) {
    var g := GridOf(ref, hyp, collar, skip);
    && (exists m :: LeastConfusion(g, m) && Totals(g, m, fs))
    && fs.refSpeakers == |Speakers(ref)| && fs.hypSpeakers == |Speakers(hyp)|
  }

  // ----- the fallback solver

  ghost function CountsOf(weight: seq<seq<nat>>, rows: nat, cols: nat): Counts
    requires |weight| == rows && forall i :: 0 <= i < rows ==> |weight[i]| == cols
  {
    map i: nat, j: nat | i < rows && j < cols :: (i, j) := weight[i][j]
  }

  /** `dict(pairs)`. */
  function Dict(pairs: seq<(nat, nat)>): map<nat, nat> {
    if pairs == [] then map[] else
      var last := pairs[|pairs| - 1];
      Dict(pairs[..|pairs| - 1])[last.0 := last.1]
  }

  method Largest(weight: seq<seq<nat>>) returns (big: nat)
    ensures forall i, j :: 0 <= i < |weight| && 0 <= j < |weight[i]| ==> weight[i][j] < big
  {
    big := 1;
    for i := 0 to |weight|
      invariant forall k, j :: 0 <= k < i && 0 <= j < |weight[k]| ==> weight[k][j] < big
    {
      for j := 0 to |weight[i]|
        invariant forall k, l :: 0 <= k < i && 0 <= l < |weight[k]| ==> weight[k][l] < big
        invariant forall l :: 0 <= l < j ==> weight[i][l] < big
      {
        if weight[i][j] >= big {
          big := weight[i][j] + 1;
        }
      }
    }
  }

  /** Row/column pairs of greatest total weight: pad to a square, turn weights
      into costs, match, and list the real cells column by column. */
  method MaxWeightAssignment(weight: seq<seq<nat>>, rows: nat, cols: nat) returns (out: seq<(nat, nat)>)
    requires |weight| == rows && forall i :: 0 <= i < rows ==> |weight[i]| == cols
    ensures OneToOne(Dict(out))
    ensures forall i :: i in Dict(out) ==> i < rows && Dict(out)[i] < cols
    ensures Best(CountsOf(weight, rows, cols), Dict(out))
  {
    out := [];
    ghost var c := CountsOf(weight, rows, cols);
    if rows == 0 || cols == 0 {
      forall m | OneToOne(m) ensures Weight(c, m) == 0 {
        WeightOfNothing(c, m);
      }
      return;
    }
    var n := if rows > cols then rows else cols;
    var big := Largest(weight);
    var cost := PaddedCost(weight, rows, cols, n, big);
    var p;
    ghost var s;
    p, s := Hungarian.AssignAll(cost, n);
    out := ListPairs(n, rows, cols, p, s);
    PairsAreBest(weight, rows, cols, n, cost, big as real, s, Dict(out));
  }

  method PaddedCost(weight: seq<seq<nat>>, rows: nat, cols: nat, n: nat, big: nat) returns (cost: Matrix)
    requires |weight| == rows && (forall i :: 0 <= i < rows ==> |weight[i]| == cols) && n >= rows && n >= cols
    ensures Square(cost, n) && forall i, j :: 0 <= i < n && 0 <= j < n ==>
      cost[i][j] == big as real - (if i < rows && j < cols then weight[i][j] as real else 0.0)
  {
    cost := seq(n, i requires 0 <= i < n => seq(n, j requires 0 <= j < n =>
      big as real - (if i < rows && j < cols then weight[i][j] as real else 0.0)));
  }

  lemma PairsAreBest(weight: seq<seq<nat>>, rows: nat, cols: nat, n: nat, cost: Matrix, big: real, s: seq<nat>,
      m: map<nat, nat>)
    requires |weight| == rows && (forall i :: 0 <= i < rows ==> |weight[i]| == cols) && n >= rows && n >= cols
    requires Square(cost, n) && forall i, j :: 0 <= i < n && 0 <= j < n ==>
      cost[i][j] == big - (if i < rows && j < cols then weight[i][j] as real else 0.0)
    requires Optimal(cost, n, s) && ListedBelow(n, rows, cols, s, n + 1, m)
    ensures OneToOne(m) && forall i :: i in m ==> i < rows && m[i] < cols
    ensures Best(CountsOf(weight, rows, cols), m)
  {
    var c := CountsOf(weight, rows, cols);
    CellsSpan(weight, rows, cols);
    CellsPadded(weight, rows, cols, n, cost, big);
    CellsPlaced(c, rows, cols, n, s, m);
    AssignmentIsBest(c, UpTo(rows), UpTo(cols), n, cost, big, s, m);
  }

  lemma CellsSpan(weight: seq<seq<nat>>, rows: nat, cols: nat)
    requires |weight| == rows && (forall i :: 0 <= i < rows ==> |weight[i]| == cols)
    ensures Spans(CountsOf(weight, rows, cols), UpTo(rows), UpTo(cols))
  {
    forall h: nat, r: nat | Count(CountsOf(weight, rows, cols), h, r) > 0 ensures h in UpTo(rows) && r in UpTo(cols) {
      assert UpTo(rows)[h] == h && UpTo(cols)[r] == r;
    }
  }

  lemma CellsPadded(weight: seq<seq<nat>>, rows: nat, cols: nat, n: nat, cost: Matrix, big: real)
    requires |weight| == rows && (forall i :: 0 <= i < rows ==> |weight[i]| == cols) && n >= rows && n >= cols
    requires Square(cost, n) && forall i, j :: 0 <= i < n && 0 <= j < n ==>
      cost[i][j] == big - (if i < rows && j < cols then weight[i][j] as real else 0.0)
    ensures Complement(cost, Padded(CountsOf(weight, rows, cols), UpTo(rows), UpTo(cols), n), n, big)
  {
  }

  lemma CellsPlaced(c: Counts, rows: nat, cols: nat, n: nat, s: seq<nat>, m: map<nat, nat>)
    requires n >= rows && IsPermutation(s, n) && ListedBelow(n, rows, cols, s, n + 1, m)
    ensures Places(c, m, UpTo(rows), UpTo(cols), s, n) && OneToOne(m)
  {
  }

  /** The pairs listed from the columns below `j`. */
  ghost predicate ListedBelow(n: nat, rows: nat, cols: nat, s: seq<nat>, j: nat, m: map<nat, nat>)
    requires |s| == n && rows <= n
  {
    && (forall i: nat :: i in m <==> i < rows && s[i] < cols && s[i] + 1 < j)
    && (forall i :: i in m ==> m[i] == s[i])
  }

  method ListPairs(n: nat, rows: nat, cols: nat, p: array<nat>, ghost s: seq<nat>) returns (out: seq<(nat, nat)>)
    requires p.Length == n + 1 && Hungarian.Columns(n, p[..], s) && rows <= n && cols <= n
    ensures ListedBelow(n, rows, cols, s, n + 1, Dict(out))
  {
    out := [];
    for j := 1 to n + 1
      invariant ListedBelow(n, rows, cols, s, j, Dict(out))
    {
      var i := p[j];
      ListNext(n, rows, cols, p[..], s, j, out);
      if 1 <= i <= rows && 1 <= j <= cols {
        out := out + [(i - 1, j - 1)];
      }
    }
  }

  /** Column `j` holds the row that is assigned to it, if any. */
  lemma ListNext(n: nat, rows: nat, cols: nat, p: seq<nat>, s: seq<nat>, j: nat, out: seq<(nat, nat)>)
    requires Hungarian.Columns(n, p, s) && rows <= n && cols <= n && 1 <= j <= n
    requires ListedBelow(n, rows, cols, s, j, Dict(out))
    ensures 1 <= p[j] <= rows && j <= cols ==>
      ListedBelow(n, rows, cols, s, j + 1, Dict(out + [(p[j] - 1, j - 1)]))
    ensures !(1 <= p[j] <= rows && j <= cols) ==> ListedBelow(n, rows, cols, s, j + 1, Dict(out))
  {
    if p[j] > 0 { DictAppend(out, p[j] - 1, j - 1); }
    assert p[j] > 0 ==> s[p[j] - 1] + 1 == j;
    assert forall k :: 0 <= k < n && s[k] + 1 == j ==> p[j] == k + 1;
  }

  lemma DictAppend(pairs: seq<(nat, nat)>, i: nat, j: nat)
    ensures Dict(pairs + [(i, j)]) == Dict(pairs)[i := j]
  {
    assert (pairs + [(i, j)])[..|pairs|] == pairs;
  }

  // ----- score_file

  /** Number the speakers, in no particular order. */
  method Enumerate(ids: set<nat>) returns (index: map<nat, nat>)
    ensures OneToOne(index) && index.Keys == ids
    ensures forall x :: x in index ==> index[x] < |ids|
  {
    index := map[];
    var rest := ids;
    while rest != {}
      invariant rest <= ids && index.Keys == ids - rest && OneToOne(index)
      invariant forall x :: x in index ==> index[x] < |ids| - |rest|
      decreases |rest|
    {
      var x :| x in rest;
      index := index[x := |ids| - |rest|];
      rest := rest - {x};
    }
  }

  lemma ActiveGrows(turns: seq<Turn>, k: nat, f: int)
    requires k < |turns|
    ensures Active(turns[..k + 1], f) ==
      if FrameOf(turns[k].start) <= f < FrameOf(turns[k].end) then Active(turns[..k], f) + {turns[k].spk}
      else Active(turns[..k], f)
  {
    assert turns[..k + 1] == turns[..k] + [turns[k]];
  }

  lemma ImageGrows(index: map<nat, nat>, s: set<nat>, x: nat)
    requires x in index
    ensures Image(index, s + {x}) == Image(index, s) + {index[x]}
  {
  }

  /** `active[f]` is the set of speaker numbers active in frame `f`. */
  method FrameSets(turns: seq<Turn>, n: nat, index: map<nat, nat>) returns (active: array<set<nat>>)
    requires Speakers(turns) <= index.Keys
    ensures fresh(active) && active.Length == n
    ensures forall f :: 0 <= f < n ==> active[f] == Image(index, Active(turns, f))
  {
    active := new set<nat>[n](_ => {});
    for k := 0 to |turns|
      invariant forall f :: 0 <= f < n ==> active[f] == Image(index, Active(turns[..k], f))
    {
      var t := turns[k];
      var s := if FrameOf(t.start) > 0 then FrameOf(t.start) else 0;
      var e := if FrameOf(t.end) < n then FrameOf(t.end) else n;
      assert t.spk in Speakers(turns);
      var id := index[t.spk];
      var f := s;
      while f < e
        invariant s <= f && (f == s || f <= e)
        invariant forall x :: 0 <= x < n ==>
          active[x] == if s <= x < f then Image(index, Active(turns[..k], x)) + {id}
            else Image(index, Active(turns[..k], x))
      {
        active[f] := active[f] + {id};
        f := f + 1;
      }
      forall x | 0 <= x < n ensures active[x] == Image(index, Active(turns[..k + 1], x)) {
        ActiveGrows(turns, k, x);
        ImageGrows(index, Active(turns[..k], x), t.spk);
      }
    }
    assert turns[..|turns|] == turns;
  }

  method ClearAround(scored: array<bool>, c: int, half: int)
    modifies scored
    ensures forall f :: 0 <= f < scored.Length ==> scored[f] == (old(scored[f]) && !(c - half <= f <= c + half))
  {
    var n := scored.Length;
    var f := if c - half > 0 then c - half else 0;
    var e := if c + half + 1 < n then c + half + 1 else n;
    while f < e
      invariant 0 <= f
      invariant forall x :: 0 <= x < n ==> scored[x] == (old(scored[x]) && !(c - half <= x <= c + half && x < f))
    {
      scored[f] := false;
      f := f + 1;
    }
  }

  /** Mask out the collars of the reference boundaries and, on request, overlapped frames. */
  method Mask(ref: seq<Turn>, collar: real, skip: bool, active: array<set<nat>>, ghost index: map<nat, nat>)
    returns (scored: array<bool>)
    requires OneToOne(index) && Speakers(ref) <= index.Keys
    requires forall f :: 0 <= f < active.Length ==> active[f] == Image(index, Active(ref, f))
    ensures fresh(scored) && scored.Length == active.Length
    ensures forall f :: 0 <= f < scored.Length ==> scored[f] == Scored(ref, collar, skip, f)
  {
    var n := active.Length;
    scored := new bool[n](_ => true);
    if collar > 0.0 {
      var half := FrameOf(collar);
      for k := 0 to |ref|
        invariant forall f :: 0 <= f < n ==> scored[f] == !NearBoundary(ref[..k], half, f)
      {
        ClearAround(scored, FrameOf(ref[k].start), half);
        ClearAround(scored, FrameOf(ref[k].end), half);
        assert ref[..k + 1] == ref[..k] + [ref[k]];
        assert ref[k] in ref[..k + 1];
        forall f | 0 <= f < n ensures scored[f] == !NearBoundary(ref[..k + 1], half, f) {
        }
      }
      assert ref[..|ref|] == ref;
    }
    if skip {
      for f := 0 to n
        invariant forall x :: 0 <= x < n ==>
          scored[x] == (!(collar > 0.0 && NearBoundary(ref, FrameOf(collar), x)) && !(x < f && |Active(ref, x)| > 1))
      {
        ImageHasSize(index, Active(ref, f));
        if |active[f]| > 1 {
          scored[f] := false;
        }
      }
    }
  }

  /** Count, for each pair of speakers, the scored frames they share. */
  method CountShared(ghost g: Grid, R: array<set<nat>>, H: array<set<nat>>, scored: array<bool>, rows: nat, cols: nat)
    returns (cooc: seq<seq<nat>>)
    requires g == Grid(R[..], H[..], scored[..]) && Indexed(g, rows, cols)
    ensures |cooc| == rows && forall r :: 0 <= r < rows ==> |cooc[r]| == cols
    ensures forall r, h :: 0 <= r < rows && 0 <= h < cols ==> cooc[r][h] == Shared(g, r, h, |g.R|)
  {
    cooc := seq(rows, _ => seq(cols, _ => 0));
    for f := 0 to scored.Length
      invariant |cooc| == rows && forall r :: 0 <= r < rows ==> |cooc[r]| == cols
      invariant forall r, h :: 0 <= r < rows && 0 <= h < cols ==> cooc[r][h] == Shared(g, r, h, f)
    {
      assert g.scored[f] == scored[f] && g.R[f] == R[f] && g.H[f] == H[f];
      if scored[f] {
        cooc := AddFrame(cooc, rows, cols, R[f], H[f]);
      }
    }
  }

  method AddFrame(before: seq<seq<nat>>, rows: nat, cols: nat, R: set<nat>, H: set<nat>) returns (cooc: seq<seq<nat>>)
    requires |before| == rows && forall r :: 0 <= r < rows ==> |before[r]| == cols
    requires (forall r :: r in R ==> r < rows) && forall h :: h in H ==> h < cols
    ensures |cooc| == rows && forall r :: 0 <= r < rows ==> |cooc[r]| == cols
    ensures forall r, h :: 0 <= r < rows && 0 <= h < cols ==> cooc[r][h] == before[r][h] + Both(R, H, r, h)
  {
    cooc := before;
    var rs := R;
    while rs != {}
      invariant rs <= R && |cooc| == rows && forall r :: 0 <= r < rows ==> |cooc[r]| == cols
      invariant forall r, h :: 0 <= r < rows && 0 <= h < cols ==>
        cooc[r][h] == before[r][h] + Both(R - rs, H, r, h)
      decreases |rs|
    {
      var r :| r in rs;
      var row := AddRow(cooc[r], cols, H);
      cooc := cooc[r := row];
      rs := rs - {r};
    }
  }

  method AddRow(before: seq<nat>, cols: nat, H: set<nat>) returns (row: seq<nat>)
    requires |before| == cols && forall h :: h in H ==> h < cols
    ensures |row| == cols && forall h :: 0 <= h < cols ==> row[h] == before[h] + (if h in H then 1 else 0)
  {
    row := before;
    var hs := H;
    while hs != {}
      invariant hs <= H && |row| == cols
      invariant forall h :: 0 <= h < cols ==> row[h] == before[h] + (if h in H - hs then 1 else 0)
      decreases |hs|
    {
      var h :| h in hs;
      row := row[h := row[h] + 1];
      hs := hs - {h};
    }
  }

  /** How many of `R` are mapped to a member of `H`. */
  method CountRight(R: set<nat>, H: set<nat>, mapping: map<nat, nat>) returns (c: nat)
    ensures c == |Right(R, H, mapping)|
  {
    var right := set r | r in R && r in mapping && mapping[r] in H;
    assert right == Right(R, H, mapping);
    c := |right|;
  }

  ghost predicate Totals(g: Grid, m: map<nat, nat>, fs: FileScore)
    requires g.Valid()
  {
    && fs.scoredRef == FRAME * RefSum(g, |g.R|) as real
    && fs.miss == FRAME * MissSum(g, |g.R|) as real
    && fs.falseAlarm == FRAME * FalseAlarmSum(g, |g.R|) as real
    && fs.confusion == FRAME * ConfusionSum(g, m, |g.R|) as real
  }

  /** Add up the error terms over the scored frames. */
  method Accumulate(ghost g: Grid, R: array<set<nat>>, H: array<set<nat>>, scored: array<bool>, mapping: map<nat, nat>,
                    refSpeakers: nat, hypSpeakers: nat)
    returns (fs: FileScore)
    requires g == Grid(R[..], H[..], scored[..]) && g.Valid()
    ensures Totals(g, mapping, fs)
    ensures fs.refSpeakers == refSpeakers && fs.hypSpeakers == hypSpeakers
  {
    fs := FileScore(0.0, 0.0, 0.0, 0.0, refSpeakers, hypSpeakers);
    for f := 0 to scored.Length
      invariant fs.scoredRef == FRAME * RefSum(g, f) as real
      invariant fs.miss == FRAME * MissSum(g, f) as real
      invariant fs.falseAlarm == FRAME * FalseAlarmSum(g, f) as real
      invariant fs.confusion == FRAME * ConfusionSum(g, mapping, f) as real
      invariant fs.refSpeakers == refSpeakers && fs.hypSpeakers == hypSpeakers
    {
      if scored[f] {
        var nref, nsys := |R[f]|, |H[f]|;
        var ncorrect := CountRight(R[f], H[f], mapping);
        if nref != 0 || nsys != 0 {
          fs := fs.(scoredRef := fs.scoredRef + FRAME * nref as real,
                    miss := fs.miss + FRAME * Excess(nref, nsys) as real,
                    falseAlarm := fs.falseAlarm + FRAME * Excess(nsys, nref) as real,
                    confusion := fs.confusion + FRAME * (Lesser(nref, nsys) - ncorrect) as real);
        }
      }
    }
  }

  /** A least-confusing map of the numbered grid, renamed back, is one of the named grid. */
  lemma LeastByName(g: Grid, h: Grid, a: map<nat, nat>, b: map<nat, nat>, m: map<nat, nat>)
    requires Renamed(g, h, a, b) && LeastConfusion(h, m)
    ensures var back := Carry(m, Inverse(a), Inverse(b));
      LeastConfusion(g, back) && ConfusionSum(g, back, |g.R|) == ConfusionSum(h, m, |h.R|)
  {
    var back := Carry(m, Inverse(a), Inverse(b));
    RenamedBack(g, h, a, b);
    RenamedSums(h, g, Inverse(a), Inverse(b), m, |h.R|);
    CarryIsOneToOne(m, Inverse(a), Inverse(b));
    forall m' | OneToOne(m') ensures ConfusionSum(g, back, |g.R|) <= ConfusionSum(g, m', |g.R|) {
      RenamedSums(g, h, a, b, m', |g.R|);
      CarryIsOneToOne(m', a, b);
    }
  }

  /** The grid the arrays hold is the named grid, numbered. */
  lemma NumberedGrid(ref: seq<Turn>, hyp: seq<Turn>, collar: real, skip: bool, g: Grid, a: map<nat, nat>,
      b: map<nat, nat>)
    requires OneToOne(a) && OneToOne(b) && a.Keys == Speakers(ref) && b.Keys == Speakers(hyp)
    requires |g.R| == |g.H| == |g.scored| == FrameCount(ref, hyp)
    requires forall f :: 0 <= f < |g.R| ==> g.R[f] == Image(a, Active(ref, f)) && g.H[f] == Image(b, Active(hyp, f))
    requires forall f :: 0 <= f < |g.R| ==> g.scored[f] == Scored(ref, collar, skip, f)
    ensures Renamed(GridOf(ref, hyp, collar, skip), g, a, b)
  {
    assert forall f :: Active(ref, f) <= Speakers(ref) && Active(hyp, f) <= Speakers(hyp);
  }

  lemma CountedLeast(g: Grid, rows: nat, cols: nat, cooc: seq<seq<nat>>, mapping: map<nat, nat>)
    requires Indexed(g, rows, cols)
    requires |cooc| == rows && forall r :: 0 <= r < rows ==> |cooc[r]| == cols
    requires forall r, h :: 0 <= r < rows && 0 <= h < cols ==> cooc[r][h] == Shared(g, r, h, |g.R|)
    requires OneToOne(mapping) && Best(CountsOf(cooc, rows, cols), mapping)
    ensures LeastConfusion(g, mapping)
  {
    assert CountsOf(cooc, rows, cols) == Table(g, rows, cols, |g.R|);
    BestConfusesLeast(g, rows, cols, mapping);
  }

  /** The totals of the numbered grid are totals of the named grid. */
  lemma TotalsByName(named: Grid, g: Grid, a: map<nat, nat>, b: map<nat, nat>, m: map<nat, nat>, fs: FileScore)
    requires Renamed(named, g, a, b) && LeastConfusion(g, m) && Totals(g, m, fs)
    ensures exists back :: LeastConfusion(named, back) && Totals(named, back, fs)
  {
    var back := Carry(m, Inverse(a), Inverse(b));
    LeastByName(named, g, a, b, m);
    RenamedSums(named, g, a, b, map[], |g.R|);
    assert LeastConfusion(named, back) && Totals(named, back, fs);
  }

  /** Score one file. */
  method ScoreFile(ref: seq<Turn>, hyp: seq<Turn>, collar: real, skip: bool) returns (fs: FileScore)
    ensures IsScore(ref, hyp, collar, skip, fs)
  {
    var n := FrameCount(ref, hyp);
    var refIds, hypIds := set t | t in ref :: t.spk, set t | t in hyp :: t.spk;
    assert refIds == Speakers(ref) && hypIds == Speakers(hyp);
    var refIndex := Enumerate(refIds);
    var hypIndex := Enumerate(hypIds);
    var R := FrameSets(ref, n, refIndex);
    var H := FrameSets(hyp, n, hypIndex);
    var scored := Mask(ref, collar, skip, R, refIndex);
    ghost var g := Grid(R[..], H[..], scored[..]);
    NumberedGrid(ref, hyp, collar, skip, g, refIndex, hypIndex);
    assert Indexed(g, |refIds|, |hypIds|);
    var cooc := CountShared(g, R, H, scored, |refIds|, |hypIds|);
    var pairs := MaxWeightAssignment(cooc, |refIds|, |hypIds|);
    fs := Accumulate(g, R, H, scored, Dict(pairs), |refIds|, |hypIds|);
    CountedLeast(g, |refIds|, |hypIds|, cooc, Dict(pairs));
    TotalsByName(GridOf(ref, hyp, collar, skip), g, refIndex, hypIndex, Dict(pairs), fs);
  }
}

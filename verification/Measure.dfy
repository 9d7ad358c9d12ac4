/** Total length of a union of closed intervals. */
module Measure {
  import opened Assignment
  import opened Sorting
  import opened Wrappers

  /** start <= end */
  ghost predicate Forward(spans: seq<TimeRange>) {
    forall i :: 0 <= i < |spans| ==> spans[i].start <= spans[i].end
  }

  ghost predicate Inside(x: real, spans: seq<TimeRange>) {
    exists i :: 0 <= i < |spans| && spans[i].start <= x <= spans[i].end
  }

  /** Forward, in order, and with a gap between neighbours. */
  ghost predicate Separated(m: seq<TimeRange>) {
    Forward(m) && forall i, j :: 0 <= i < j < |m| ==> m[i].end < m[j].start
  }

  function Length(m: seq<TimeRange>): real {
    if m == [] then 0.0 else (m[0].end - m[0].start) + Length(m[1..])
  }

  ghost predicate Within(a: seq<TimeRange>, b: seq<TimeRange>) {
    forall x: real :: Inside(x, a) ==> Inside(x, b)
  }

  /** `total` is the length of the union of `spans`: the length of some separated
      list that covers the same points. */
  ghost predicate IsMeasure(spans: seq<TimeRange>, total: real) {
    exists m :: Separated(m) && Within(m, spans) && Within(spans, m) && total == Length(m)
  }

  lemma {:induction false} LengthNonNegative(m: seq<TimeRange>)
    requires Forward(m)
    ensures Length(m) >= 0.0
  {
    if m != [] { LengthNonNegative(m[1..]); }
  }

  /** A point inside separated spans, up to the end of the first, is in the first. */
  lemma InFirst(x: real, m: seq<TimeRange>)
    requires Separated(m) && m != [] && Inside(x, m) && x <= m[0].end
    ensures m[0].start <= x
  {
    var i :| 0 <= i < |m| && m[i].start <= x <= m[i].end;
  }

  lemma InRest(x: real, m: seq<TimeRange>)
    requires Separated(m) && m != [] && Inside(x, m) && x > m[0].end
    ensures Inside(x, m[1..])
  {
    var i :| 0 <= i < |m| && m[i].start <= x <= m[i].end;
    assert m[1..][i - 1] == m[i];
  }

  lemma TailSeparated(m: seq<TimeRange>)
    requires Separated(m) && m != []
    ensures Separated(m[1..])
    ensures forall x: real :: Inside(x, m[1..]) ==> Inside(x, m) && x > m[0].end
  {
    forall x: real | Inside(x, m[1..]) ensures Inside(x, m) && x > m[0].end {
      var i :| 0 <= i < |m[1..]| && m[1..][i].start <= x <= m[1..][i].end;
      assert m[i + 1] == m[1..][i];
    }
  }

  /** The first span of `a` lies in one span of `b`, if it starts in `b`'s first. */
  lemma FirstFits(a: seq<TimeRange>, b: seq<TimeRange>)
    requires Separated(a) && Separated(b) && a != [] && b != [] && Within(a, b) && a[0].start <= b[0].end
    ensures b[0].start <= a[0].start && a[0].end <= b[0].end
  {
    assert Inside(a[0].start, a);
    InFirst(a[0].start, b);
    if a[0].end > b[0].end {
      var y := PointInGap(b, a[0].end);
      PointOfFirst(y, a);
      assert false;
    }
  }

  lemma PointOfFirst(y: real, a: seq<TimeRange>)
    requires a != [] && a[0].start <= y <= a[0].end
    ensures Inside(y, a)
  {
  }

  /** Just past the first span, before the second, there is an uncovered point. */
  lemma PointInGap(b: seq<TimeRange>, e: real) returns (y: real)
    requires Separated(b) && b != [] && b[0].end < e
    ensures b[0].end < y <= e && !Inside(y, b)
  {
    y := if |b| > 1 && b[1].start <= e then (b[0].end + b[1].start) / 2.0 else e;
    forall i | 0 <= i < |b| ensures !(b[i].start <= y <= b[i].end) {
      assert i > 1 ==> b[1].end < b[i].start;
    }
  }

  /** A union inside another is no longer. */
  lemma {:induction false} WithinIsShorter(a: seq<TimeRange>, b: seq<TimeRange>)
    requires Separated(a) && Separated(b) && Within(a, b)
    ensures Length(a) <= Length(b)
    decreases |a|, |b|
  {
    if a == [] {
      LengthNonNegative(b);
    } else {
      assert Inside(a[0].start, a);
      assert b != [];
      TailSeparated(a);
      TailSeparated(b);
      if a[0].start > b[0].end {
        DropUnused(a, b);
        WithinIsShorter(a, b[1..]);
      } else {
        FirstFits(a, b);
        var cut := [TimeRange(a[0].end, b[0].end)] + b[1..];
        CutCovers(a, b, cut);
        WithinIsShorter(a[1..], cut);
        assert cut[1..] == b[1..];
      }
    }
  }

  lemma DropUnused(a: seq<TimeRange>, b: seq<TimeRange>)
    requires Separated(a) && Separated(b) && a != [] && b != [] && Within(a, b) && a[0].start > b[0].end
    ensures Within(a, b[1..])
  {
    forall x: real | Inside(x, a) ensures Inside(x, b[1..]) {
      var i :| 0 <= i < |a| && a[i].start <= x <= a[i].end;
      assert i > 0 ==> a[0].end < a[i].start;
      InRest(x, b);
    }
  }

  lemma CutCovers(a: seq<TimeRange>, b: seq<TimeRange>, cut: seq<TimeRange>)
    requires Separated(a) && Separated(b) && a != [] && b != [] && Within(a, b)
    requires b[0].start <= a[0].start && a[0].end <= b[0].end
    requires cut == [TimeRange(a[0].end, b[0].end)] + b[1..]
    ensures Separated(cut) && Within(a[1..], cut)
  {
    TailSeparated(a);
    forall x: real | Inside(x, a[1..]) ensures Inside(x, cut) {
      assert Inside(x, b);
      if x <= b[0].end {
        assert cut[0].start <= x <= cut[0].end;
      } else {
        InRest(x, b);
        var i :| 0 <= i < |b[1..]| && b[1..][i].start <= x <= b[1..][i].end;
        assert cut[i + 1] == b[1..][i];
      }
    }
  }

  /** More spans, no smaller union. */
  lemma MeasureMonotone(a: seq<TimeRange>, b: seq<TimeRange>, x: real, y: real)
    requires IsMeasure(a, x) && IsMeasure(b, y) && Within(a, b)
    ensures x <= y
  {
    var m :| Separated(m) && Within(m, a) && Within(a, m) && x == Length(m);
    var k :| Separated(k) && Within(k, b) && Within(b, k) && y == Length(k);
    assert Within(m, k);
    WithinIsShorter(m, k);
  }

  /** The measure depends only on the points covered: not on order or repetition. */
  lemma MeasureUnique(a: seq<TimeRange>, b: seq<TimeRange>, x: real, y: real)
    requires IsMeasure(a, x) && IsMeasure(b, y) && Within(a, b) && Within(b, a)
    ensures x == y
  {
    MeasureMonotone(a, b, x, y);
    MeasureMonotone(b, a, y, x);
  }

  // ----- computing it by a sweep over the spans sorted by start

  /** Span `i` comes before span `j` in the sweep: by start, then by position. */
  predicate Earlier(spans: seq<TimeRange>, i: nat, j: nat)
    requires i < |spans| && j < |spans|
  {
    spans[i].start < spans[j].start || (spans[i].start == spans[j].start && i < j)
  }

  /** Span `j` ends before it starts, and no span that comes before it reaches its start. */
  ghost predicate Loose(spans: seq<TimeRange>, j: nat)
    requires j < |spans|
  {
    && spans[j].end < spans[j].start
    && forall i: nat :: i < |spans| && Earlier(spans, i, j) ==> spans[i].end < spans[j].start
  }

  ghost predicate Anchored(spans: seq<TimeRange>) {
    forall j: nat :: j < |spans| ==> !Loose(spans, j)
  }

  /** The length that loose spans subtract from a sweep's total. */
  ghost function Shortfall(spans: seq<TimeRange>): real {
    Sum(Charges(spans))
  }

  ghost function Charges(spans: seq<TimeRange>): (c: seq<real>)
    ensures |c| == |spans|
    ensures forall j :: 0 <= j < |spans| ==> c[j] == if Loose(spans, j) then spans[j].start - spans[j].end else 0.0
  {
    seq(|spans|, j requires 0 <= j < |spans| => if Loose(spans, j) then spans[j].start - spans[j].end else 0.0)
  }

  lemma {:induction false} SumOfCharges(f: seq<real>)
    requires forall j :: 0 <= j < |f| ==> f[j] >= 0.0
    ensures Sum(f) >= 0.0 && (Sum(f) == 0.0 <==> forall j :: 0 <= j < |f| ==> f[j] == 0.0)
  {
    if f != [] {
      var m := |f| - 1;
      SumOfCharges(f[..m]);
      assert forall j :: 0 <= j < m ==> f[j] == f[..m][j];
    }
  }

  /** Nothing falls short exactly when no span is loose. */
  lemma ShortfallSign(spans: seq<TimeRange>)
    ensures Shortfall(spans) >= 0.0 && (Shortfall(spans) == 0.0 <==> Anchored(spans))
  {
    var c := Charges(spans);
    SumOfCharges(c);
    assert forall j: nat :: j < |spans| ==> (c[j] == 0.0 <==> !Loose(spans, j));
  }

  function Starts(spans: seq<TimeRange>): (keys: seq<real>)
    ensures |keys| == |spans| && forall i :: 0 <= i < |spans| ==> keys[i] == spans[i].start
  {
    seq(|spans|, i requires 0 <= i < |spans| => spans[i].start)
  }

  /** `r` lists `spans` by start, equal starts in their old order; `p` are the old positions. */
  ghost predicate ByStart(spans: seq<TimeRange>, r: seq<TimeRange>, p: seq<nat>) {
    SortedOrder(Starts(spans), p) && |r| == |p| && forall k :: 0 <= k < |r| ==> r[k] == spans[p[k]]
  }

  /** Sorting does not change the points covered. */
  lemma SortedCovers(spans: seq<TimeRange>, r: seq<TimeRange>, p: seq<nat>)
    requires ByStart(spans, r, p)
    ensures Within(r, spans) && Within(spans, r)
  {
    forall x: real | Inside(x, r) ensures Inside(x, spans) {
      var l :| 0 <= l < |r| && r[l].start <= x <= r[l].end;
      assert spans[p[l]] == r[l];
    }
    forall x: real | Inside(x, spans) ensures Inside(x, r) {
      var i :| 0 <= i < |spans| && spans[i].start <= x <= spans[i].end;
      assert Listed(p, i);
      var l :| 0 <= l < |p| && p[l] == i;
      assert r[l] == spans[i];
    }
  }

  /** Nor does it change what falls short. */
  lemma SortedFallsShort(spans: seq<TimeRange>, r: seq<TimeRange>, p: seq<nat>)
    requires ByStart(spans, r, p)
    ensures Debt(r, |r|) == Shortfall(spans)
  {
    DebtAlike(spans, r, p, |r|);
    assert p[..|r|] == p;
    SumAtPermutation(Charges(spans), p);
  }

  lemma {:induction false} DebtAlike(spans: seq<TimeRange>, r: seq<TimeRange>, p: seq<nat>, k: nat)
    requires ByStart(spans, r, p) && k <= |r|
    ensures Debt(r, k) == SumAt(Charges(spans), p[..k])
  {
    if k > 0 {
      DebtAlike(spans, r, p, k - 1);
      LooseAlike(spans, r, p, k - 1);
      assert p[..k][..k - 1] == p[..k - 1];
    }
  }

  lemma LooseAlike(spans: seq<TimeRange>, r: seq<TimeRange>, p: seq<nat>, j: nat)
    requires ByStart(spans, r, p) && j < |r|
    ensures LooseAt(r, j) <==> Loose(spans, p[j])
  {
    if LooseAt(r, j) {
      forall i: nat | i < |spans| && Earlier(spans, i, p[j]) ensures spans[i].end < spans[p[j]].start {
        assert Listed(p, i);
        var l :| 0 <= l < |p| && p[l] == i;
        assert l < j;
      }
    }
    if Loose(spans, p[j]) {
      forall i | 0 <= i < j ensures r[i].end < r[j].start {
        assert Earlier(spans, p[i], p[j]);
      }
    }
  }

  /** `Loose`, for a sorted list. */
  ghost predicate LooseAt(r: seq<TimeRange>, j: nat)
    requires j < |r|
  {
    r[j].end < r[j].start && forall i :: 0 <= i < j ==> r[i].end < r[j].start
  }

  ghost function Debt(r: seq<TimeRange>, k: nat): real
    requires k <= |r|
  {
    if k == 0 then 0.0
    else Debt(r, k - 1) + if LooseAt(r, k - 1) then r[k - 1].start - r[k - 1].end else 0.0
  }

  /** The merged spans so far: the closed ones, and the open one unless it runs backwards. */
  function Merged(closed: seq<TimeRange>, cs: real, ce: real): seq<TimeRange> {
    if cs <= ce then closed + [TimeRange(cs, ce)] else closed
  }

  /** The merged spans cover what the first `k` sorted spans cover; `cs`..`ce` is open. */
  ghost predicate Covered(r: seq<TimeRange>, k: nat, closed: seq<TimeRange>, cs: real, ce: real)
    requires 0 < k <= |r|
  {
    var m := Merged(closed, cs, ce);
    && Separated(m) && Within(m, r[..k]) && Within(r[..k], m)
    && forall i :: 0 <= i < |closed| ==> closed[i].end < cs
  }

  /** `total`, with the open span added, falls short of the union by the debt. */
  ghost predicate Billed(r: seq<TimeRange>, k: nat, closed: seq<TimeRange>, cs: real, ce: real, total: real)
    requires 0 < k <= |r|
  {
    && total + (ce - cs) == Length(Merged(closed, cs, ce)) - Debt(r, k)
    && cs <= r[k - 1].start
    && (forall i :: 0 <= i < k ==> r[i].end <= ce || r[i].end < cs)
    && (exists i :: 0 <= i < k && r[i].end == ce)
  }

  ghost predicate Swept(r: seq<TimeRange>, k: nat, closed: seq<TimeRange>, cs: real, ce: real, total: real)
    requires 0 < k <= |r|
  {
    Covered(r, k, closed, cs, ce) && Billed(r, k, closed, cs, ce, total)
  }

  lemma {:induction false} LengthAppend(m: seq<TimeRange>, s: TimeRange)
    ensures Length(m + [s]) == Length(m) + (s.end - s.start)
  {
    if m == [] {
      assert m + [s] == [s] && [s][1..] == [];
    } else {
      LengthAppend(m[1..], s);
      assert (m + [s])[1..] == m[1..] + [s];
    }
  }

  /** Add up the merged spans: the length of the union less what loose spans subtract, so
      the length itself exactly when no span is loose. */
  method UnionLength(unsorted: seq<TimeRange>) returns (total: real)
    ensures IsMeasure(unsorted, total + Shortfall(unsorted))
    ensures IsMeasure(unsorted, total) <==> Anchored(unsorted)
  {
    var p := SortOrder(Starts(unsorted));
    var r := seq(|p|, k requires 0 <= k < |p| => unsorted[p[k]]);
    total := MergeSorted(r);
    SortedCovers(unsorted, r, p);
    SortedFallsShort(unsorted, r, p);
    SweepSettles(unsorted, r);
    ShortfallSign(unsorted);
    if IsMeasure(unsorted, total) {
      MeasureUnique(unsorted, unsorted, total, total + Shortfall(unsorted));
    }
  }

  /** The sweep over sorted spans. */
  method MergeSorted(r: seq<TimeRange>) returns (total: real)
    ensures total == SweepTotal(r)
  {
    if r == [] { return 0.0; }
    var cs, ce := r[0].start, r[0].end;
    total := 0.0;
    for k := 1 to |r|
      invariant MergedUpTo(r, k) == (cs, ce, total)
    {
      var s, e := r[k].start, r[k].end;
      if s <= ce {
        ce := if ce > e then ce else e;
      } else {
        total := total + (ce - cs);
        cs, ce := s, e;
      }
    }
    total := total + (ce - cs);
  }

  function SweepTotal(r: seq<TimeRange>): real {
    if r == [] then 0.0
    else
      var (cs, ce, total) := MergedUpTo(r, |r|);
      total + (ce - cs)
  }

  /** The open merged span after the first `k`, and the total of the closed ones. */
  function MergedUpTo(r: seq<TimeRange>, k: nat): (real, real, real)
    requires 0 < k <= |r|
  {
    if k == 1 then (r[0].start, r[0].end, 0.0)
    else
      var (cs, ce, total) := MergedUpTo(r, k - 1);
      if r[k - 1].start <= ce then (cs, if ce > r[k - 1].end then ce else r[k - 1].end, total)
      else (r[k - 1].start, r[k - 1].end, total + (ce - cs))
  }

  /** The merged spans closed by then. */
  ghost function ClosedUpTo(r: seq<TimeRange>, k: nat): seq<TimeRange>
    requires 0 < k <= |r|
  {
    if k == 1 then []
    else
      var (cs, ce, total) := MergedUpTo(r, k - 1);
      if r[k - 1].start <= ce then ClosedUpTo(r, k - 1) else Merged(ClosedUpTo(r, k - 1), cs, ce)
  }

  lemma {:induction false} SweepMerges(r: seq<TimeRange>, k: nat)
    requires 0 < k <= |r| && forall i, j :: 0 <= i < j < |r| ==> r[i].start <= r[j].start
    ensures var (cs, ce, total) := MergedUpTo(r, k); Swept(r, k, ClosedUpTo(r, k), cs, ce, total)
  {
    if k == 1 {
      FirstSpan(r);
    } else {
      SweepMerges(r, k - 1);
      var (cs, ce, total) := MergedUpTo(r, k - 1);
      if r[k - 1].start <= ce {
        Grow(r, k - 1, ClosedUpTo(r, k - 1), cs, ce, total);
      } else {
        Close(r, k - 1, ClosedUpTo(r, k - 1), cs, ce, total);
      }
    }
  }

  lemma SweepSettles(spans: seq<TimeRange>, r: seq<TimeRange>)
    requires Within(r, spans) && Within(spans, r)
    requires forall i, j :: 0 <= i < j < |r| ==> r[i].start <= r[j].start
    ensures IsMeasure(spans, SweepTotal(r) + Debt(r, |r|))
  {
    if r == [] {
      Covers(spans, [], 0.0);
    } else {
      var (cs, ce, total) := MergedUpTo(r, |r|);
      SweepMerges(r, |r|);
      AllSwept(spans, r, ClosedUpTo(r, |r|), cs, ce, total);
    }
  }

  lemma AllSwept(spans: seq<TimeRange>, r: seq<TimeRange>, closed: seq<TimeRange>, cs: real, ce: real, total: real)
    requires r != [] && Swept(r, |r|, closed, cs, ce, total) && Within(r, spans) && Within(spans, r)
    ensures IsMeasure(spans, total + (ce - cs) + Debt(r, |r|))
  {
    assert r[..|r|] == r;
    Covers(spans, Merged(closed, cs, ce), total + (ce - cs) + Debt(r, |r|));
  }

  lemma Covers(spans: seq<TimeRange>, m: seq<TimeRange>, total: real)
    requires Separated(m) && Within(m, spans) && Within(spans, m) && total == Length(m)
    ensures IsMeasure(spans, total)
  {
  }

  lemma FirstSpan(r: seq<TimeRange>)
    requires r != []
    ensures Swept(r, 1, [], r[0].start, r[0].end, 0.0)
  {
    var m := Merged([], r[0].start, r[0].end);
    forall x: real ensures Inside(x, m) <==> Inside(x, r[..1]) {
      SplitInside(x, r, 0);
      LastInside(x, [], r[0]);
    }
    LengthAppend([], r[0]);
    assert LooseAt(r, 0) <==> r[0].end < r[0].start;
  }

  lemma SplitInside(x: real, spans: seq<TimeRange>, k: nat)
    requires k < |spans|
    ensures Inside(x, spans[..k + 1]) <==> Inside(x, spans[..k]) || spans[k].start <= x <= spans[k].end
  {
    if Inside(x, spans[..k + 1]) {
      var i :| 0 <= i < k + 1 && spans[..k + 1][i].start <= x <= spans[..k + 1][i].end;
      if i < k { assert spans[..k][i] == spans[i]; }
    }
    if Inside(x, spans[..k]) {
      var i :| 0 <= i < k && spans[..k][i].start <= x <= spans[..k][i].end;
      assert spans[..k + 1][i] == spans[i];
    }
    if spans[k].start <= x <= spans[k].end {
      assert spans[..k + 1][k] == spans[k];
    }
  }

  lemma LastInside(x: real, closed: seq<TimeRange>, s: TimeRange)
    ensures Inside(x, closed + [s]) <==> Inside(x, closed) || s.start <= x <= s.end
  {
    var m := closed + [s];
    SplitInside(x, m, |closed|);
    assert m[..|closed|] == closed && m[..|closed| + 1] == m;
  }

  /** A span that starts by the open one's end joins it, and is not loose. */
  lemma Grow(r: seq<TimeRange>, k: nat, closed: seq<TimeRange>, cs: real, ce: real, total: real)
    requires 0 < k < |r| && r[k - 1].start <= r[k].start <= ce && Swept(r, k, closed, cs, ce, total)
    ensures Swept(r, k + 1, closed, cs, if ce > r[k].end then ce else r[k].end, total)
  {
    GrowCovers(r, k, closed, cs, ce);
    LengthAppend(closed, TimeRange(cs, ce));
    LengthAppend(closed, TimeRange(cs, if ce > r[k].end then ce else r[k].end));
    assert !LooseAt(r, k);
  }

  lemma GrowCovers(r: seq<TimeRange>, k: nat, closed: seq<TimeRange>, cs: real, ce: real)
    requires 0 < k < |r| && cs <= r[k].start <= ce && Covered(r, k, closed, cs, ce)
    ensures Covered(r, k + 1, closed, cs, if ce > r[k].end then ce else r[k].end)
  {
    var e := if ce > r[k].end then ce else r[k].end;
    var m, m' := closed + [TimeRange(cs, ce)], closed + [TimeRange(cs, e)];
    assert m[|closed|] == TimeRange(cs, ce);
    assert forall i :: 0 <= i < |closed| ==> m[i] == closed[i] && m'[i] == closed[i];
    forall x: real ensures Inside(x, m') <==> Inside(x, r[..k + 1]) {
      SplitInside(x, r, k);
      LastInside(x, closed, TimeRange(cs, ce));
      LastInside(x, closed, TimeRange(cs, e));
    }
  }

  /** A span that starts later closes the open one; if it runs backwards it is loose. */
  lemma Close(r: seq<TimeRange>, k: nat, closed: seq<TimeRange>, cs: real, ce: real, total: real)
    requires 0 < k < |r| && r[k - 1].start <= r[k].start && r[k].start > ce && Swept(r, k, closed, cs, ce, total)
    ensures Swept(r, k + 1, Merged(closed, cs, ce), r[k].start, r[k].end, total + (ce - cs))
  {
    CloseCovers(r, k, closed, cs, ce);
    LengthAppend(Merged(closed, cs, ce), r[k]);
    assert LooseAt(r, k) <==> r[k].end < r[k].start;
  }

  lemma CloseCovers(r: seq<TimeRange>, k: nat, closed: seq<TimeRange>, cs: real, ce: real)
    requires 0 < k < |r| && cs <= r[k].start && r[k].start > ce && Covered(r, k, closed, cs, ce)
    ensures Covered(r, k + 1, Merged(closed, cs, ce), r[k].start, r[k].end)
  {
    var m := Merged(closed, cs, ce);
    var m' := Merged(m, r[k].start, r[k].end);
    assert forall i :: 0 <= i < |m| ==> m[i].end < r[k].start;
    forall x: real ensures Inside(x, m') <==> Inside(x, r[..k + 1]) {
      SplitInside(x, r, k);
      LastInside(x, m, r[k]);
    }
  }

  /** Windows that run forwards are never loose. */
  lemma ForwardIsAnchored(spans: seq<TimeRange>)
    requires Forward(spans)
    ensures Anchored(spans)
  {
  }

  /** A single backward span covers nothing, and the sweep returns minus its extent. */
  lemma BackwardSpanFallsShort(a: real, b: real)
    requires b < a
    ensures var s := [TimeRange(a, b)]; !Anchored(s) && IsMeasure(s, 0.0) && Shortfall(s) == a - b
  {
    var s := [TimeRange(a, b)];
    assert Loose(s, 0);
    Covers(s, [], 0.0);
    var c := Charges(s);
    assert c[..0] == [] && Sum(c) == Sum(c[..0]) + c[0];
  }

  // ----- the time a sweep gives

  /** The length of the union of the windows, less what loose ones subtract. */
  ghost predicate Timed(windows: seq<TimeRange>, duration: real) {
    IsMeasure(windows, duration + Shortfall(windows))
  }

  /** The windows by start, equal starts in their old order. */
  function Sorted(windows: seq<TimeRange>): seq<TimeRange> {
    var p := OrderOf(Starts(windows), |windows|);
    seq(|windows|, k requires 0 <= k < |windows| => windows[p[k]])
  }

  /** What a sweep over the windows adds up. */
  function SpeechTime(windows: seq<TimeRange>): real {
    SweepTotal(Sorted(windows))
  }

  lemma SpeechIsTimed(windows: seq<TimeRange>)
    ensures Timed(windows, SpeechTime(windows))
  {
    var p := OrderOf(Starts(windows), |windows|);
    var r := Sorted(windows);
    OrderOfSorts(Starts(windows), |windows|);
    SortedCovers(windows, r, p);
    SortedFallsShort(windows, r, p);
    SweepSettles(windows, r);
  }

  lemma TimedIsUnique(windows: seq<TimeRange>, d: real)
    requires Timed(windows, d)
    ensures d == SpeechTime(windows)
  {
    SpeechIsTimed(windows);
    MeasureUnique(windows, windows, d + Shortfall(windows), SpeechTime(windows) + Shortfall(windows));
  }

  lemma {:induction false} SumAtMost(f: seq<real>, g: seq<real>)
    requires |f| == |g| && forall i :: 0 <= i < |f| ==> f[i] <= g[i]
    ensures Sum(f) <= Sum(g)
  {
    if f != [] { SumAtMost(f[..|f| - 1], g[..|g| - 1]); }
  }

  lemma {:induction false} SumPicked(f: seq<real>, c: seq<real>, p: seq<nat>)
    requires |f| == |p| && forall x :: 0 <= x < |p| ==> p[x] < |c| && f[x] == c[p[x]]
    ensures Sum(f) == SumAt(c, p)
  {
    if f != [] { SumPicked(f[..|f| - 1], c, p[..|p| - 1]); }
  }
}

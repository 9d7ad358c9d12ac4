/** How frames measure seconds: which frames a file has, and what the score of the plainest
    files is in seconds. */
module DerTimes {
  import opened Cooccurrence
  import opened Frames
  import opened Der

  // ----- one instant

  /** A time falls in the nearest ten-millisecond frame; half-way, in the even one. */
  lemma NearestFrame(t: real)
    ensures -0.005 <= t - 0.010 * FrameOf(t) as real <= 0.005
    ensures t - 0.010 * FrameOf(t) as real == 0.005 || t - 0.010 * FrameOf(t) as real == -0.005 ==> FrameOf(t) % 2 == 0
  {
    Nearest(t / FRAME);
    assert t == FRAME * (t / FRAME);
  }

  lemma Nearest(x: real)
    ensures -0.5 <= x - Round(x) as real <= 0.5
    ensures x - Round(x) as real == 0.5 || x - Round(x) as real == -0.5 ==> Round(x) % 2 == 0
  {
  }

  lemma FrameMonotone(t: real, u: real)
    requires t <= u
    ensures FrameOf(t) <= FrameOf(u)
  {
    RoundMonotone(t / FRAME, u / FRAME);
  }

  lemma FirstFrame()
    ensures FrameOf(0.0) == 0
  {
  }

  // ----- the frames of a file

  lemma {:induction false} LatestIsLast(turns: seq<Turn>)
    ensures Latest(turns) >= 0.0 && forall t :: t in turns ==> t.end <= Latest(turns)
    ensures Latest(turns) == 0.0 || exists t :: t in turns && t.end == Latest(turns)
  {
    if turns != [] {
      var init, last := turns[..|turns| - 1], turns[|turns| - 1];
      LatestIsLast(init);
      assert forall t :: t in turns <==> t in init || t == last;
    }
  }

  /** The frame of the latest end plus one, or one frame if no turn ends after zero: no turn
      ends beyond the last frame, and some turn ends in it. */
  lemma FramesReach(ref: seq<Turn>, hyp: seq<Turn>, collar: real, skip: bool)
    ensures var n := |GridOf(ref, hyp, collar, skip).R|;
      && n >= 1 && (forall t :: t in ref || t in hyp ==> FrameOf(t.end) <= n - 1)
      && (n == 1 || exists t :: (t in ref || t in hyp) && FrameOf(t.end) == n - 1)
  {
    LatestIsLast(ref);
    LatestIsLast(hyp);
    FirstFrame();
    var last := if Latest(ref) > Latest(hyp) then Latest(ref) else Latest(hyp);
    FrameMonotone(0.0, last);
    assert |GridOf(ref, hyp, collar, skip).R| == FrameOf(last) + 1;
    forall t | t in ref || t in hyp ensures FrameOf(t.end) <= FrameOf(last) {
      FrameMonotone(t.end, last);
    }
  }

  /** Every frame in which a speaker of either side is active is looked at. */
  lemma NoSpeechBeyond(ref: seq<Turn>, hyp: seq<Turn>, collar: real, skip: bool, f: int)
    requires Active(ref, f) != {} || Active(hyp, f) != {}
    ensures f < |GridOf(ref, hyp, collar, skip).R|
  {
    FramesReach(ref, hyp, collar, skip);
  }

  // ----- one stretch of speech

  /** Between frames `lo` and `hi` there are `c` speakers on one side; elsewhere nobody is scored. */
  ghost predicate Stretch(scored: seq<bool>, side: seq<set<nat>>, lo: int, hi: int, c: nat) {
    && |scored| == |side| && 0 <= lo <= hi <= |side|
    && forall f :: 0 <= f < |side| ==> if lo <= f < hi then scored[f] && |side[f]| == c else !scored[f] || side[f] == {}
  }

  /** Frames of the stretch among the first `k`. */
  function Passed(lo: int, hi: int, k: int): int {
    if k <= lo then 0 else if k <= hi then k - lo else hi - lo
  }

  lemma {:induction false} StretchMissed(g: Grid, m: map<nat, nat>, lo: int, hi: int, c: nat, k: nat)
    requires g.Valid() && k <= |g.R| && Stretch(g.scored, g.R, lo, hi, c) && forall f :: 0 <= f < |g.R| ==> g.H[f] == {}
    ensures RefSum(g, k) == MissSum(g, k) == c * Passed(lo, hi, k)
    ensures FalseAlarmSum(g, k) == 0 && ConfusionSum(g, m, k) == 0
  {
    if k > 0 {
      StretchMissed(g, m, lo, hi, c, k - 1);
      assert Right(g.R[k - 1], g.H[k - 1], m) == {};
      OneMore(c, Passed(lo, hi, k - 1));
    }
  }

  lemma {:induction false} StretchFalse(g: Grid, m: map<nat, nat>, lo: int, hi: int, c: nat, k: nat)
    requires g.Valid() && k <= |g.R| && Stretch(g.scored, g.H, lo, hi, c) && forall f :: 0 <= f < |g.R| ==> g.R[f] == {}
    ensures FalseAlarmSum(g, k) == c * Passed(lo, hi, k)
    ensures RefSum(g, k) == 0 && MissSum(g, k) == 0 && ConfusionSum(g, m, k) == 0
  {
    if k > 0 {
      StretchFalse(g, m, lo, hi, c, k - 1);
      assert Right(g.R[k - 1], g.H[k - 1], m) == {};
      OneMore(c, Passed(lo, hi, k - 1));
    }
  }

  lemma OneMore(c: nat, n: int)
    ensures c * (n + 1) == c * n + c
  {
  }

  lemma OneActive(t: Turn, f: int)
    ensures Active([t], f) == if FrameOf(t.start) <= f < FrameOf(t.end) then {t.spk} else {}
  {
    assert t in [t];
  }

  lemma NobodyActive(f: int)
    ensures Active([], f) == {}
  {
  }

  /** The frames of a turn, in order. */
  lemma TurnFrames(t: Turn)
    requires 0.0 <= t.start <= t.end
    ensures 0 <= FrameOf(t.start) <= FrameOf(t.end)
    ensures -0.010 <= 0.010 * (FrameOf(t.end) - FrameOf(t.start)) as real - (t.end - t.start) <= 0.010
    ensures t.start == 0.0 ==> FrameOf(t.start) == 0 && -0.005 <= 0.010 * FrameOf(t.end) as real - t.end <= 0.005
  {
    FirstFrame();
    FrameMonotone(0.0, t.start);
    FrameMonotone(t.start, t.end);
    NearestFrame(t.start);
    NearestFrame(t.end);
  }

  /** Without a collar, one turn on either side is one stretch. */
  lemma LoneStretch(t: Turn, ref: seq<Turn>, hyp: seq<Turn>, skip: bool, g: Grid)
    requires 0.0 <= t.start <= t.end && g == GridOf(ref, hyp, 0.0, skip)
    requires (ref == [t] && hyp == []) || (ref == [] && hyp == [t])
    ensures 0 <= FrameOf(t.start) <= FrameOf(t.end) < |g.R|
    ensures ref == [t] ==> Stretch(g.scored, g.R, FrameOf(t.start), FrameOf(t.end), 1)
    ensures ref == [] ==> Stretch(g.scored, g.H, FrameOf(t.start), FrameOf(t.end), 1)
    ensures forall f :: 0 <= f < |g.R| ==> if ref == [t] then g.H[f] == {} else g.R[f] == {}
  {
    TurnFrames(t);
    FramesReach(ref, hyp, 0.0, skip);
    assert t in [t];
    forall f | 0 <= f < |g.R| ensures Active([t], f) == if FrameOf(t.start) <= f < FrameOf(t.end) then {t.spk} else {} {
      OneActive(t, f);
    }
  }

  /** A single reference turn and no system turn: the turn's length is scored and missed. */
  lemma LoneReference(t: Turn, skip: bool, fs: FileScore)
    requires 0.0 <= t.start <= t.end && IsScore([t], [], 0.0, skip, fs)
    ensures fs.miss == fs.scoredRef && fs.falseAlarm == 0.0 && fs.confusion == 0.0
    ensures -0.010 <= fs.scoredRef - (t.end - t.start) <= 0.010
    ensures t.start == 0.0 ==> -0.005 <= fs.scoredRef - t.end <= 0.005
  {
    var g := GridOf([t], [], 0.0, skip);
    var m :| LeastConfusion(g, m) && Totals(g, m, fs);
    LoneStretch(t, [t], [], skip, g);
    StretchMissed(g, m, FrameOf(t.start), FrameOf(t.end), 1, |g.R|);
    TurnFrames(t);
  }

  /** A single system turn and no reference turn: the turn's length is false alarm. */
  lemma LoneSystem(t: Turn, skip: bool, fs: FileScore)
    requires 0.0 <= t.start <= t.end && IsScore([], [t], 0.0, skip, fs)
    ensures fs.miss == fs.scoredRef == 0.0 && fs.confusion == 0.0
    ensures -0.010 <= fs.falseAlarm - (t.end - t.start) <= 0.010
    ensures t.start == 0.0 ==> -0.005 <= fs.falseAlarm - t.end <= 0.005
  {
    var g := GridOf([], [t], 0.0, skip);
    var m :| LeastConfusion(g, m) && Totals(g, m, fs);
    LoneStretch(t, [], [t], skip, g);
    StretchFalse(g, m, FrameOf(t.start), FrameOf(t.end), 1, |g.R|);
    TurnFrames(t);
  }

  // ----- collars and overlap

  /** A collar of `c` seconds takes `c` seconds, and at most a frame and a half more, from
      each end of a turn that is long enough. */
  lemma CollarTakesBothEnds(t: Turn, collar: real, skip: bool, fs: FileScore)
    requires t.start == 0.0 && 0.0 < collar && 2.0 * collar + 0.030 <= t.end && IsScore([t], [], collar, skip, fs)
    ensures fs.miss == fs.scoredRef
    ensures -0.015 <= fs.scoredRef - (t.end - 2.0 * collar - 0.010) <= 0.015
  {
    var g := GridOf([t], [], collar, skip);
    var m :| LeastConfusion(g, m) && Totals(g, m, fs);
    var half, hi := FrameOf(collar), FrameOf(t.end);
    CollarFits(t.end, collar);
    CollarStretch(t, collar, skip, g);
    StretchMissed(g, m, half + 1, hi - half, 1, |g.R|);
  }

  lemma CollarFits(end: real, collar: real)
    requires 0.0 < collar && 2.0 * collar + 0.030 <= end
    ensures 0 <= FrameOf(collar) && FrameOf(collar) + 1 <= FrameOf(end) - FrameOf(collar)
    ensures -0.015 <= 0.010 * (FrameOf(end) - 2 * FrameOf(collar) - 1) as real - (end - 2.0 * collar - 0.010) <= 0.015
  {
    FirstFrame();
    FrameMonotone(0.0, collar);
    NearestFrame(collar);
    NearestFrame(end);
  }

  lemma CollarStretch(t: Turn, collar: real, skip: bool, g: Grid)
    requires t.start == 0.0 && 0.0 < collar && g == GridOf([t], [], collar, skip)
    requires 0 <= FrameOf(collar) && FrameOf(collar) + 1 <= FrameOf(t.end) - FrameOf(collar)
    ensures Stretch(g.scored, g.R, FrameOf(collar) + 1, FrameOf(t.end) - FrameOf(collar), 1)
    ensures forall f :: 0 <= f < |g.R| ==> g.H[f] == {}
  {
    var half, hi := FrameOf(collar), FrameOf(t.end);
    FirstFrame();
    FramesReach([t], [], collar, skip);
    assert t in [t];
    forall f | 0 <= f < |g.R|
      ensures g.R[f] == if f < hi then {t.spk} else {}
      ensures f < hi ==> (g.scored[f] <==> half < f < hi - half)
    {
      OneActive(t, f);
    }
  }

  lemma TwoActive(end: real, a: nat, b: nat, f: int)
    ensures Active([Turn(0.0, end, a), Turn(0.0, end, b)], f) == if 0 <= f < FrameOf(end) then {a, b} else {}
  {
    var turns := [Turn(0.0, end, a), Turn(0.0, end, b)];
    FirstFrame();
    assert turns[0] in turns && turns[1] in turns;
  }

  /** Two reference speakers at once count twice, or not at all when overlap is skipped. */
  lemma OverlapCountsTwice(end: real, a: nat, b: nat, skip: bool, fs: FileScore)
    requires 0.0 <= end && a != b && IsScore([Turn(0.0, end, a), Turn(0.0, end, b)], [], 0.0, skip, fs)
    ensures fs.miss == fs.scoredRef && (skip ==> fs.scoredRef == 0.0)
    ensures !skip ==> -0.010 <= fs.scoredRef - 2.0 * end <= 0.010
  {
    var ref := [Turn(0.0, end, a), Turn(0.0, end, b)];
    var g := GridOf(ref, [], 0.0, skip);
    var m :| LeastConfusion(g, m) && Totals(g, m, fs);
    OverlapFrames(end, a, b, skip, g);
    if skip {
      StretchMissed(g, m, 0, 0, 2, |g.R|);
    } else {
      StretchMissed(g, m, 0, FrameOf(end), 2, |g.R|);
    }
    NearestFrame(end);
  }

  lemma OverlapFrames(end: real, a: nat, b: nat, skip: bool, g: Grid)
    requires 0.0 <= end && a != b && g == GridOf([Turn(0.0, end, a), Turn(0.0, end, b)], [], 0.0, skip)
    ensures 0 <= FrameOf(end) <= |g.R|
    ensures forall f :: 0 <= f < |g.R| ==> g.H[f] == {} && |g.R[f]| == if f < FrameOf(end) then 2 else 0
    ensures forall f :: 0 <= f < |g.R| && f < FrameOf(end) ==> g.scored[f] == !skip
  {
    var ref := [Turn(0.0, end, a), Turn(0.0, end, b)];
    FirstFrame();
    FrameMonotone(0.0, end);
    FramesReach(ref, [], 0.0, skip);
    assert ref[0] in ref;
    forall f | 0 <= f < |g.R|
      ensures g.H[f] == {} && |g.R[f]| == (if f < FrameOf(end) then 2 else 0)
      ensures f < FrameOf(end) ==> g.scored[f] == !skip
    {
      TwoActive(end, a, b, f);
    }
  }

  // ----- both sides of the error

  ghost function HypSum(g: Grid, k: nat): nat
    requires g.Valid() && k <= |g.R|
  {
    if k == 0 then 0 else HypSum(g, k - 1) + if g.scored[k - 1] then |g.H[k - 1]| else 0
  }

  /** System speech is right, confused or false alarm. */
  lemma {:induction false} DecomposeSystem(g: Grid, m: map<nat, nat>, k: nat)
    requires g.Valid() && k <= |g.R| && OneToOne(m)
    ensures HypSum(g, k) == RightSum(g, m, k) + FalseAlarmSum(g, k) + ConfusionSum(g, m, k)
  {
    if k > 0 { DecomposeSystem(g, m, k - 1); }
  }

  /** No frame has a miss and a false alarm. */
  lemma MissOrFalseAlarm(R: set<nat>, H: set<nat>)
    ensures Excess(|R|, |H|) == 0 || Excess(|H|, |R|) == 0
  {
  }

  /** The system's side of a score, beside `ScoreDecomposes`; and the rate is the errors'
      share of the scored reference speech, in percent. */
  lemma ScoreBalances(ref: seq<Turn>, hyp: seq<Turn>, collar: real, skip: bool, fs: FileScore)
    returns (m: map<nat, nat>)
    requires IsScore(ref, hyp, collar, skip, fs)
    ensures LeastConfusion(GridOf(ref, hyp, collar, skip), m)
    ensures var g := GridOf(ref, hyp, collar, skip);
      && fs.scoredRef == 0.010 * (RefSum(g, |g.R|) as real)
      && 0.010 * (HypSum(g, |g.R|) as real) == 0.010 * (RightSum(g, m, |g.R|) as real) + fs.falseAlarm + fs.confusion
    ensures fs.scoredRef > 0.0 ==> fs.Der() * fs.scoredRef == 100.0 * (fs.miss + fs.falseAlarm + fs.confusion)
    ensures fs.scoredRef == 0.0 ==> fs.Der() == 0.0
  {
    var g := GridOf(ref, hyp, collar, skip);
    m :| LeastConfusion(g, m) && Totals(g, m, fs);
    DecomposeSystem(g, m, |g.R|);
    RateOf(fs);
  }

  lemma RateOf(fs: FileScore)
    ensures fs.scoredRef > 0.0 ==> fs.Der() * fs.scoredRef == 100.0 * (fs.miss + fs.falseAlarm + fs.confusion)
    ensures fs.scoredRef == 0.0 ==> fs.Der() == 0.0
  {
  }
}

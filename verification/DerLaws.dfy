/** What every file score obeys, whichever optimal speaker map was found. */
module DerLaws {
  import opened Cooccurrence
  import opened Frames
  import opened Der

  /** The score does not depend on which optimal map the solver returns. */
  lemma ScoreIsUnique(ref: seq<Turn>, hyp: seq<Turn>, collar: real, skip: bool, x: FileScore, y: FileScore)
    requires IsScore(ref, hyp, collar, skip, x) && IsScore(ref, hyp, collar, skip, y)
    ensures x == y
  {
    var g := GridOf(ref, hyp, collar, skip);
    var m :| LeastConfusion(g, m) && Totals(g, m, x);
    var m' :| LeastConfusion(g, m') && Totals(g, m', y);
    assert ConfusionSum(g, m, |g.R|) == ConfusionSum(g, m', |g.R|);
  }

  /** Reference speech splits into correct, missed and confused time under a map of least
      confusion; no term is negative. */
  lemma ScoreDecomposes(ref: seq<Turn>, hyp: seq<Turn>, collar: real, skip: bool, fs: FileScore)
    returns (m: map<nat, nat>)
    requires IsScore(ref, hyp, collar, skip, fs)
    ensures var g := GridOf(ref, hyp, collar, skip);
      LeastConfusion(g, m) && fs.scoredRef == FRAME * RightSum(g, m, |g.R|) as real + fs.miss + fs.confusion
    ensures fs.miss >= 0.0 && fs.falseAlarm >= 0.0 && fs.confusion >= 0.0 && fs.Der() >= 0.0
  {
    var g := GridOf(ref, hyp, collar, skip);
    m :| LeastConfusion(g, m) && Totals(g, m, fs);
    Decompose(g, m, |g.R|);
    DerKeepsSign(fs);
  }

  lemma DerKeepsSign(fs: FileScore)
    requires fs.miss >= 0.0 && fs.falseAlarm >= 0.0 && fs.confusion >= 0.0
    ensures fs.Der() >= 0.0
  {
  }

  // ----- a smaller scored region

  lemma WiderCollar(ref: seq<Turn>, hyp: seq<Turn>, collar: real, collar': real, skip: bool, skip': bool)
    requires collar <= collar' && (skip ==> skip')
    ensures Narrower(GridOf(ref, hyp, collar, skip), GridOf(ref, hyp, collar', skip'))
  {
    RoundMonotone(collar / FRAME, collar' / FRAME);
    forall f | Scored(ref, collar', skip', f) ensures Scored(ref, collar, skip, f) {
      if collar > 0.0 && NearBoundary(ref, FrameOf(collar), f) {
        assert NearBoundary(ref, FrameOf(collar'), f);
      }
    }
  }

  /** Widening the collar or skipping overlap never raises a term, although the
      speaker map is chosen anew on the smaller region. */
  lemma WideningNeverRaises(ref: seq<Turn>, hyp: seq<Turn>, collar: real, collar': real, skip: bool, skip': bool,
                            fs: FileScore, fs': FileScore)
    requires collar <= collar' && (skip ==> skip')
    requires IsScore(ref, hyp, collar, skip, fs) && IsScore(ref, hyp, collar', skip', fs')
    ensures fs'.scoredRef <= fs.scoredRef && fs'.miss <= fs.miss
    ensures fs'.falseAlarm <= fs.falseAlarm && fs'.confusion <= fs.confusion
  {
    var g, h := GridOf(ref, hyp, collar, skip), GridOf(ref, hyp, collar', skip');
    var m :| LeastConfusion(g, m) && Totals(g, m, fs);
    var m' :| LeastConfusion(h, m') && Totals(h, m', fs');
    WiderCollar(ref, hyp, collar, collar', skip, skip');
    NarrowerIsLess(g, h, m, |g.R|);
  }

  // ----- renaming speakers

  /** The same turns under new speaker names. */
  ghost function Rename(turns: seq<Turn>, a: map<nat, nat>): (r: seq<Turn>)
    requires Speakers(turns) <= a.Keys
    ensures |r| == |turns|
    ensures forall i :: 0 <= i < |turns| ==>
      turns[i].spk in a && r[i] == Turn(turns[i].start, turns[i].end, a[turns[i].spk])
  {
    assert forall i :: 0 <= i < |turns| ==> turns[i].spk in Speakers(turns);
    seq(|turns|, i requires 0 <= i < |turns| => Turn(turns[i].start, turns[i].end, a[turns[i].spk]))
  }

  lemma RenameActive(turns: seq<Turn>, a: map<nat, nat>, f: int)
    requires Speakers(turns) <= a.Keys
    ensures Active(Rename(turns, a), f) == Image(a, Active(turns, f))
  {
    var r := Rename(turns, a);
    forall x | x in Active(r, f) ensures x in Image(a, Active(turns, f)) {
      var i :| 0 <= i < |r| && FrameOf(r[i].start) <= f < FrameOf(r[i].end) && r[i].spk == x;
      assert turns[i] in turns && turns[i].spk in Active(turns, f);
    }
    forall x | x in Image(a, Active(turns, f)) ensures x in Active(r, f) {
      var i :| 0 <= i < |turns| && FrameOf(turns[i].start) <= f < FrameOf(turns[i].end) && a[turns[i].spk] == x;
      assert r[i] in r;
    }
  }

  lemma RenameBoundary(turns: seq<Turn>, a: map<nat, nat>, half: int, f: int)
    requires Speakers(turns) <= a.Keys
    ensures NearBoundary(Rename(turns, a), half, f) == NearBoundary(turns, half, f)
  {
    var r := Rename(turns, a);
    if NearBoundary(turns, half, f) {
      var i :| 0 <= i < |turns| &&
        (FrameOf(turns[i].start) - half <= f <= FrameOf(turns[i].start) + half ||
         FrameOf(turns[i].end) - half <= f <= FrameOf(turns[i].end) + half);
      assert r[i] in r;
    }
    if NearBoundary(r, half, f) {
      var i :| 0 <= i < |r| &&
        (FrameOf(r[i].start) - half <= f <= FrameOf(r[i].start) + half ||
         FrameOf(r[i].end) - half <= f <= FrameOf(r[i].end) + half);
      assert turns[i] in turns;
    }
  }

  lemma {:induction false} RenameLatest(turns: seq<Turn>, a: map<nat, nat>)
    requires Speakers(turns) <= a.Keys
    ensures Latest(Rename(turns, a)) == Latest(turns)
  {
    if turns != [] {
      var init := turns[..|turns| - 1];
      assert Speakers(init) <= Speakers(turns);
      RenameLatest(init, a);
      assert Rename(turns, a)[..|turns| - 1] == Rename(init, a);
    }
  }

  lemma RenameScored(ref: seq<Turn>, a: map<nat, nat>, collar: real, skip: bool, f: int)
    requires Speakers(ref) <= a.Keys && OneToOne(a)
    ensures Scored(Rename(ref, a), collar, skip, f) == Scored(ref, collar, skip, f)
  {
    RenameActive(ref, a, f);
    assert Active(ref, f) <= Speakers(ref);
    ImageHasSize(a, Active(ref, f));
    RenameBoundary(ref, a, FrameOf(collar), f);
  }

  lemma RenameGrid(ref: seq<Turn>, hyp: seq<Turn>, a: map<nat, nat>, b: map<nat, nat>, collar: real, skip: bool)
    requires Speakers(ref) <= a.Keys && Speakers(hyp) <= b.Keys && OneToOne(a) && OneToOne(b)
    ensures Renamed(GridOf(ref, hyp, collar, skip), GridOf(Rename(ref, a), Rename(hyp, b), collar, skip), a, b)
  {
    RenameLatest(ref, a);
    RenameLatest(hyp, b);
    var g, h := GridOf(ref, hyp, collar, skip), GridOf(Rename(ref, a), Rename(hyp, b), collar, skip);
    forall f | 0 <= f < |g.R|
      ensures g.R[f] <= a.Keys && h.R[f] == Image(a, g.R[f])
      ensures g.H[f] <= b.Keys && h.H[f] == Image(b, g.H[f])
      ensures g.scored[f] == h.scored[f]
    {
      RenameActive(ref, a, f);
      RenameActive(hyp, b, f);
      RenameScored(ref, a, collar, skip, f);
      assert Active(ref, f) <= Speakers(ref) && Active(hyp, f) <= Speakers(hyp);
    }
  }

  lemma RenameSpeakers(turns: seq<Turn>, a: map<nat, nat>)
    requires Speakers(turns) <= a.Keys && OneToOne(a)
    ensures |Speakers(Rename(turns, a))| == |Speakers(turns)|
  {
    var r := Rename(turns, a);
    forall x | x in Speakers(r) ensures x in Image(a, Speakers(turns)) {
      var i :| 0 <= i < |r| && r[i].spk == x;
      assert turns[i].spk in Speakers(turns);
    }
    forall x | x in Image(a, Speakers(turns)) ensures x in Speakers(r) {
      var i :| 0 <= i < |turns| && a[turns[i].spk] == x;
      assert r[i] in r;
    }
    assert Speakers(r) == Image(a, Speakers(turns));
    ImageHasSize(a, Speakers(turns));
  }

  /** Renaming the speakers of either side leaves the whole score as it was. */
  lemma ScoreIgnoresNames(ref: seq<Turn>, hyp: seq<Turn>, a: map<nat, nat>, b: map<nat, nat>, collar: real, skip: bool,
                          x: FileScore, y: FileScore)
    requires Speakers(ref) <= a.Keys && Speakers(hyp) <= b.Keys && OneToOne(a) && OneToOne(b)
    requires IsScore(ref, hyp, collar, skip, x) && IsScore(Rename(ref, a), Rename(hyp, b), collar, skip, y)
    ensures x == y
  {
    var g, h := GridOf(ref, hyp, collar, skip), GridOf(Rename(ref, a), Rename(hyp, b), collar, skip);
    var m :| LeastConfusion(g, m) && Totals(g, m, x);
    var m' :| LeastConfusion(h, m') && Totals(h, m', y);
    RenameGrid(ref, hyp, a, b, collar, skip);
    RenamedLeast(g, h, a, b, m, m');
    RenamedSums(g, h, a, b, m, |g.R|);
    RenameSpeakers(ref, a);
    RenameSpeakers(hyp, b);
  }

  // ----- a reference against itself

  /** Every frame of `g` has the same speakers on both sides, under other names. */
  ghost predicate Copied(g: Grid, b: map<nat, nat>) {
    g.Valid() && OneToOne(b) && forall f :: 0 <= f < |g.R| ==> g.R[f] <= b.Keys && g.H[f] == Image(b, g.R[f])
  }

  lemma {:induction false} CopySums(g: Grid, b: map<nat, nat>, k: nat)
    requires Copied(g, b) && k <= |g.R|
    ensures MissSum(g, k) == 0 && FalseAlarmSum(g, k) == 0 && ConfusionSum(g, b, k) == 0
  {
    if k > 0 {
      CopySums(g, b, k - 1);
      ImageHasSize(b, g.R[k - 1]);
      assert Right(g.R[k - 1], g.H[k - 1], b) == g.R[k - 1];
    }
  }

  lemma CopyLeast(g: Grid, b: map<nat, nat>, m: map<nat, nat>)
    requires Copied(g, b) && LeastConfusion(g, m)
    ensures MissSum(g, |g.R|) == 0 && FalseAlarmSum(g, |g.R|) == 0 && ConfusionSum(g, m, |g.R|) == 0
  {
    CopySums(g, b, |g.R|);
    Decompose(g, m, |g.R|);
  }

  lemma CopyGrid(ref: seq<Turn>, b: map<nat, nat>, collar: real, skip: bool)
    requires Speakers(ref) <= b.Keys && OneToOne(b)
    ensures Copied(GridOf(ref, Rename(ref, b), collar, skip), b)
  {
    var g := GridOf(ref, Rename(ref, b), collar, skip);
    forall f | 0 <= f < |g.R| ensures g.R[f] <= b.Keys && g.H[f] == Image(b, g.R[f]) {
      RenameActive(ref, b, f);
      assert Active(ref, f) <= Speakers(ref);
    }
  }

  /** A reference scored against a relabelled copy of itself has no error. */
  lemma CopyScoresZero(ref: seq<Turn>, b: map<nat, nat>, collar: real, skip: bool, fs: FileScore)
    requires Speakers(ref) <= b.Keys && OneToOne(b)
    requires IsScore(ref, Rename(ref, b), collar, skip, fs)
    ensures fs.miss == 0.0 && fs.falseAlarm == 0.0 && fs.confusion == 0.0 && fs.Der() == 0.0
  {
    var g := GridOf(ref, Rename(ref, b), collar, skip);
    CopyGrid(ref, b, collar, skip);
    var m :| LeastConfusion(g, m) && Totals(g, m, fs);
    CopyLeast(g, b, m);
    NoErrorNoRate(fs);
  }

  lemma NoErrorNoRate(fs: FileScore)
    requires fs.miss == 0.0 && fs.falseAlarm == 0.0 && fs.confusion == 0.0
    ensures fs.Der() == 0.0
  {
  }
}

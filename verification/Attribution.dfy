/** Word-to-speaker attribution: the two-pointer sweep over time-sorted words and
    turns, the full scan it replaces, and timestamp interpolation. */
module Attribution {
  import opened Wrappers
  import opened Sorting

  function UnwrapOr<T>(o: Option<T>, d: T): T {
    if o.Some? then o.value else d
  }

  datatype SpeakerTurn = SpeakerTurn(speaker: nat, time: TimeRange)

  datatype Word = Word(word: string, time: TimeRange, confidence: real)

  datatype WordAlignment = WordAlignment(word: string, time: TimeRange, speaker: Option<nat>, confidence: real,
    interpolated: bool)

  function Max(a: real, b: real): real { if a > b then a else b }

  function Min(a: real, b: real): real { if a < b then a else b }

  function Overlap(a: TimeRange, b: TimeRange): real {
    Max(Min(a.end, b.end) - Max(a.start, b.start), 0.0)
  }

  function Gap(a: TimeRange, b: TimeRange): real {
    if a.end <= b.start then b.start - a.end
    else if b.end <= a.start then a.start - b.end
    else 0.0
  }

  predicate BetterTurn(cand: nat, cur: nat, turns: seq<SpeakerTurn>)
    requires cand < |turns| && cur < |turns|
  {
    turns[cand].speaker < turns[cur].speaker || (turns[cand].speaker == turns[cur].speaker && cand < cur)
  }

  function MakeAlignment(w: Word, speaker: Option<nat>, confidence: real, interpolated: bool): WordAlignment {
    WordAlignment(w.word, w.time, speaker, confidence, interpolated)
  }

  // ----- what attribution promises

  ghost predicate Wider(w: Word, turns: seq<SpeakerTurn>, a: nat, b: nat)
    requires a < |turns| && b < |turns|
  {
    var x, y := Overlap(w.time, turns[a].time), Overlap(w.time, turns[b].time);
    x > y || (x == y && BetterTurn(a, b, turns))
  }

  ghost predicate Nearer(w: Word, turns: seq<SpeakerTurn>, a: nat, b: nat)
    requires a < |turns| && b < |turns|
  {
    var x, y := Gap(w.time, turns[a].time), Gap(w.time, turns[b].time);
    x < y || (x == y && BetterTurn(a, b, turns))
  }

  ghost predicate Touches(w: Word, turns: seq<SpeakerTurn>) {
    exists i :: 0 <= i < |turns| && Overlap(w.time, turns[i].time) > 0.0
  }

  /** Turn `b` overlaps the word most or, when none overlaps, lies nearest; ties go
      to the smaller speaker id, then the earlier turn. */
  ghost predicate IsChoice(w: Word, turns: seq<SpeakerTurn>, b: nat) {
    && b < |turns|
    && (Touches(w, turns) ==> forall i :: 0 <= i < |turns| && i != b ==> Wider(w, turns, b, i))
    && (!Touches(w, turns) ==> forall i :: 0 <= i < |turns| && i != b ==> Nearer(w, turns, b, i))
  }

  /** Confidence, scaled by the covered fraction of the word when it overlaps. */
  function Scaled(w: Word, overlap: real): real {
    if overlap > 0.0 && w.time.end - w.time.start > 0.0
    then w.confidence * Min(overlap / (w.time.end - w.time.start), 1.0)
    else w.confidence
  }

  ghost predicate Tagged(w: Word, turns: seq<SpeakerTurn>, speaker: Option<nat>, confidence: real) {
    if turns == [] then speaker == None && confidence == w.confidence
    else exists b: nat :: Tags(w, turns, b, speaker, confidence)
  }

  ghost predicate Tags(w: Word, turns: seq<SpeakerTurn>, b: nat, speaker: Option<nat>, confidence: real) {
    && IsChoice(w, turns, b)
    && speaker == Some(turns[b].speaker) && confidence == Scaled(w, Overlap(w.time, turns[b].time))
  }

  /** There is one tag per word, so two procedures that tag agree. */
  lemma TagIsUnique(w: Word, turns: seq<SpeakerTurn>, s: Option<nat>, c: real, s': Option<nat>, c': real)
    requires Tagged(w, turns, s, c) && Tagged(w, turns, s', c')
    ensures s == s' && c == c'
  {
    if turns != [] {
      var b: nat :| Tags(w, turns, b, s, c);
      var b': nat :| Tags(w, turns, b', s', c');
      if b != b' {
        if Touches(w, turns) {
          assert Wider(w, turns, b, b') && Wider(w, turns, b', b);
        } else {
          assert Nearer(w, turns, b, b') && Nearer(w, turns, b', b);
        }
      }
    }
  }

  // ----- what a tag means

  /** The overlap is the length of the longest stretch of time that lies in both ranges. */
  lemma OverlapIsShared(a: TimeRange, b: TimeRange, d: real)
    requires d > 0.0
    ensures Overlap(a, b) >= 0.0
    ensures d <= Overlap(a, b) <==> exists s: real {:trigger Shares(a, b, s, d)} :: Shares(a, b, s, d)
  {
    if d <= Overlap(a, b) {
      assert Shares(a, b, Max(a.start, b.start), d);
    }
  }

  predicate Shares(a: TimeRange, b: TimeRange, s: real, d: real) {
    a.start <= s && s + d <= a.end && b.start <= s && s + d <= b.end
  }

  /** The gap of two forward ranges is the distance of their nearest points. */
  lemma GapIsDistance(a: TimeRange, b: TimeRange) returns (x: real, y: real)
    requires a.start <= a.end && b.start <= b.end
    ensures a.start <= x <= a.end && b.start <= y <= b.end
    ensures Gap(a, b) == if x < y then y - x else x - y
    ensures forall p: real, q: real {:trigger Distance(p, q)} :: a.start <= p <= a.end && b.start <= q <= b.end ==>
      Gap(a, b) <= Distance(p, q)
  {
    if a.end <= b.start {
      x, y := a.end, b.start;
    } else if b.end <= a.start {
      x, y := a.start, b.end;
    } else {
      x := if a.start > b.start then a.start else b.start;
      y := x;
    }
  }

  function Distance(p: real, q: real): real {
    if p < q then q - p else p - q
  }

  /** The tag is turn `b`'s: of the turns with the greatest overlap, or with the least gap
      when none overlaps, none has a smaller speaker. An overlapping tag's confidence is
      the word's in proportion to the part of the word that is covered. */
  ghost predicate TagOf(w: Word, turns: seq<SpeakerTurn>, b: nat, speaker: Option<nat>, confidence: real) {
    && b < |turns| && speaker == Some(turns[b].speaker)
    && (Overlap(w.time, turns[b].time) > 0.0 ==>
          && (forall i :: 0 <= i < |turns| ==> Overlap(w.time, turns[i].time) <= Overlap(w.time, turns[b].time))
          && (forall i :: 0 <= i < |turns| && Overlap(w.time, turns[i].time) == Overlap(w.time, turns[b].time) ==>
                turns[b].speaker <= turns[i].speaker)
          && confidence * (w.time.end - w.time.start) == w.confidence * Overlap(w.time, turns[b].time))
    && (Overlap(w.time, turns[b].time) <= 0.0 ==>
          && (forall i :: 0 <= i < |turns| ==> Overlap(w.time, turns[i].time) <= 0.0)
          && (forall i :: 0 <= i < |turns| ==> Gap(w.time, turns[b].time) <= Gap(w.time, turns[i].time))
          && (forall i :: 0 <= i < |turns| && Gap(w.time, turns[i].time) == Gap(w.time, turns[b].time) ==>
                turns[b].speaker <= turns[i].speaker)
          && confidence == w.confidence)
  }

  ghost predicate MeantTag(w: Word, turns: seq<SpeakerTurn>, speaker: Option<nat>, confidence: real) {
    if turns == [] then speaker == None && confidence == w.confidence
    else exists b: nat :: TagOf(w, turns, b, speaker, confidence)
  }

  lemma WidestMeans(w: Word, turns: seq<SpeakerTurn>, b: nat, i: nat)
    requires IsChoice(w, turns, b) && Overlap(w.time, turns[b].time) > 0.0 && i < |turns|
    ensures Overlap(w.time, turns[i].time) <= Overlap(w.time, turns[b].time)
    ensures Overlap(w.time, turns[i].time) == Overlap(w.time, turns[b].time) ==> turns[b].speaker <= turns[i].speaker
  {
    assert Touches(w, turns);
    assert i != b ==> Wider(w, turns, b, i);
  }

  lemma NearestMeans(w: Word, turns: seq<SpeakerTurn>, b: nat, i: nat)
    requires IsChoice(w, turns, b) && Overlap(w.time, turns[b].time) <= 0.0 && i < |turns|
    ensures Overlap(w.time, turns[i].time) <= 0.0 && Gap(w.time, turns[b].time) <= Gap(w.time, turns[i].time)
    ensures Gap(w.time, turns[i].time) == Gap(w.time, turns[b].time) ==> turns[b].speaker <= turns[i].speaker
  {
    if Touches(w, turns) { NoneTouches(w, turns, b); }
    assert i != b ==> Nearer(w, turns, b, i);
  }

  lemma ChosenTag(w: Word, turns: seq<SpeakerTurn>, b: nat, speaker: Option<nat>, confidence: real)
    requires Tags(w, turns, b, speaker, confidence)
    ensures TagOf(w, turns, b, speaker, confidence)
  {
    var most, least := Overlap(w.time, turns[b].time), Gap(w.time, turns[b].time);
    if most > 0.0 {
      CoveredPart(w, most);
      forall i | 0 <= i < |turns|
        ensures Overlap(w.time, turns[i].time) <= most
        ensures Overlap(w.time, turns[i].time) == most ==> turns[b].speaker <= turns[i].speaker
      {
        WidestMeans(w, turns, b, i);
      }
    } else {
      forall i | 0 <= i < |turns|
        ensures Overlap(w.time, turns[i].time) <= 0.0 && least <= Gap(w.time, turns[i].time)
        ensures Gap(w.time, turns[i].time) == least ==> turns[b].speaker <= turns[i].speaker
      {
        NearestMeans(w, turns, b, i);
      }
    }
  }

  lemma CoveredPart(w: Word, overlap: real)
    requires 0.0 < overlap <= w.time.end - w.time.start
    ensures Scaled(w, overlap) * (w.time.end - w.time.start) == w.confidence * overlap
  {
    var d := w.time.end - w.time.start;
    var part := overlap / d;
    PartOf(overlap, d);
    assert Scaled(w, overlap) == w.confidence * part;
    assert w.confidence * part * d == w.confidence * (part * d);
  }

  lemma PartOf(x: real, d: real)
    requires 0.0 < x <= d
    ensures x / d <= 1.0 && (x / d) * d == x
  {
    var part := x / d;
    if part > 1.0 { assert part * d > d; }
  }

  /** What every tag means, said with overlaps, gaps and speakers alone. */
  lemma TagMeans(w: Word, turns: seq<SpeakerTurn>, speaker: Option<nat>, confidence: real)
    requires Tagged(w, turns, speaker, confidence)
    ensures MeantTag(w, turns, speaker, confidence)
  {
    if turns != [] {
      var b: nat :| Tags(w, turns, b, speaker, confidence);
      ChosenTag(w, turns, b, speaker, confidence);
    }
  }

  lemma WiderChain(w: Word, turns: seq<SpeakerTurn>, a: nat, b: nat)
    requires a < |turns| && b < |turns| && Wider(w, turns, a, b)
    ensures forall k :: 0 <= k < |turns| && Wider(w, turns, b, k) ==> Wider(w, turns, a, k)
  {
  }

  lemma NearerChain(w: Word, turns: seq<SpeakerTurn>, a: nat, b: nat)
    requires a < |turns| && b < |turns| && Nearer(w, turns, a, b)
    ensures forall k :: 0 <= k < |turns| && Nearer(w, turns, b, k) ==> Nearer(w, turns, a, k)
  {
  }

  // ----- the full scan

  /** Confidence by the covered fraction of the word. */
  function Weighed(w: Word, overlap: real): (c: real)
    ensures overlap > 0.0 ==> c == Scaled(w, overlap)
  {
    var dur := Max(w.time.end - w.time.start, 0.0);
    if dur > 0.0 then w.confidence * Min(overlap / dur, 1.0) else w.confidence
  }

  method AttributeOneReference(w: Word, turns: seq<SpeakerTurn>) returns (speaker: Option<nat>, confidence: real)
    ensures Tagged(w, turns, speaker, confidence)
  {
    if turns == [] {
      return None, w.confidence;
    }
    var bi, bov := WidestTurn(w, turns);
    if bov > 0.0 {
      assert Tags(w, turns, bi, Some(turns[bi].speaker), Scaled(w, bov));
      return Some(turns[bi].speaker), Weighed(w, bov);
    }
    NoneTouches(w, turns, bi);
    var nearest := NearestTurn(w, turns);
    assert Tags(w, turns, nearest, Some(turns[nearest].speaker), w.confidence);
    return Some(turns[nearest].speaker), w.confidence;
  }

  method WidestTurn(w: Word, turns: seq<SpeakerTurn>) returns (bi: nat, bov: real)
    requires turns != []
    ensures bi < |turns| && bov == Overlap(w.time, turns[bi].time)
    ensures forall k :: 0 <= k < |turns| && k != bi ==> Wider(w, turns, bi, k)
  {
    bi, bov := 0, Overlap(w.time, turns[0].time);
    for i := 1 to |turns|
      invariant bi < i && bov == Overlap(w.time, turns[bi].time)
      invariant forall k :: 0 <= k < i && k != bi ==> Wider(w, turns, bi, k)
    {
      var ov := Overlap(w.time, turns[i].time);
      if ov > bov || (ov == bov && BetterTurn(i, bi, turns)) {
        WiderChain(w, turns, i, bi);
        bi, bov := i, ov;
      }
    }
  }

  lemma NoneTouches(w: Word, turns: seq<SpeakerTurn>, bi: nat)
    requires bi < |turns| && Overlap(w.time, turns[bi].time) <= 0.0
    requires forall k :: 0 <= k < |turns| && k != bi ==> Wider(w, turns, bi, k)
    ensures !Touches(w, turns)
  {
    forall k | 0 <= k < |turns| ensures Overlap(w.time, turns[k].time) <= 0.0 {
      assert k != bi ==> Wider(w, turns, bi, k);
    }
  }

  /** The source starts from an infinite gap, which turn 0 always replaces. */
  method NearestTurn(w: Word, turns: seq<SpeakerTurn>) returns (nearest: nat)
    requires turns != []
    ensures nearest < |turns| && forall k :: 0 <= k < |turns| && k != nearest ==> Nearer(w, turns, nearest, k)
  {
    var minGap := Gap(w.time, turns[0].time);
    nearest := 0;
    for i := 1 to |turns|
      invariant nearest < i && minGap == Gap(w.time, turns[nearest].time)
      invariant forall k :: 0 <= k < i && k != nearest ==> Nearer(w, turns, nearest, k)
    {
      var g := Gap(w.time, turns[i].time);
      if g < minGap || (g == minGap && BetterTurn(i, nearest, turns)) {
        NearerChain(w, turns, i, nearest);
        nearest, minGap := i, g;
      }
    }
  }

  // ----- the sweep

  /** The turn does not both end before the word and start after it, unless it is as far
      off on either side: then how late it ends says how near it is. */
  predicate Straight(w: Word, t: TimeRange) {
    t.end <= w.time.start && w.time.end <= t.start ==> t.start - w.time.end == w.time.start - t.end
  }

  predicate AllStraight(w: Word, turns: seq<SpeakerTurn>) {
    forall i :: 0 <= i < |turns| ==> Straight(w, turns[i].time)
  }

  /** Some turn overlaps the word, or all are straight to it. */
  ghost predicate Clear(w: Word, turns: seq<SpeakerTurn>) {
    Touches(w, turns) || AllStraight(w, turns)
  }

  predicate Proper(t: TimeRange) {
    t.start <= t.end
  }

  ghost predicate AllProper(turns: seq<SpeakerTurn>) {
    forall i :: 0 <= i < |turns| ==> Proper(turns[i].time)
  }

  /** Forward turns are clear of any forward word. */
  lemma ForwardIsClear(w: Word, turns: seq<SpeakerTurn>)
    requires Proper(w.time) && AllProper(turns)
    ensures Clear(w, turns)
  {
    assert forall i :: 0 <= i < |turns| ==> Straight(w, turns[i].time);
  }

  function Starts(turns: seq<SpeakerTurn>): seq<real> {
    seq(|turns|, i requires 0 <= i < |turns| => turns[i].time.start)
  }

  /** Turn `a` ends later than `b`; ties as everywhere. */
  predicate Later(turns: seq<SpeakerTurn>, a: nat, b: nat)
    requires a < |turns| && b < |turns|
  {
    turns[a].time.end > turns[b].time.end || (turns[a].time.end == turns[b].time.end && BetterTurn(a, b, turns))
  }

  /** The first `left` turns of the order end by `t`, and `best` is the one among
      them that ends last. */
  ghost predicate Passed(turns: seq<SpeakerTurn>, order: seq<nat>, left: nat, best: Option<nat>, t: real) {
    && SortedOrder(Starts(turns), order) && left <= |order|
    && (forall k :: 0 <= k < left ==> turns[order[k]].time.end <= t)
    && (best.None? <==> left == 0)
    && (best.Some? ==>
          best.value < |turns| && turns[best.value].time.end <= t &&
          forall k :: 0 <= k < left && order[k] != best.value ==> Later(turns, best.value, order[k]))
  }

  /** `left` has passed every turn it can. */
  ghost predicate Arrived(turns: seq<SpeakerTurn>, order: seq<nat>, left: nat, best: Option<nat>, t: real) {
    Passed(turns, order, left, best, t) && (left < |order| ==> turns[order[left]].time.end > t)
  }

  /** Turn `b` is what the sweep answers: the choice if any turn overlaps the word, else
      the nearest of the best passed turn and the turns not passed. */
  ghost predicate Picks(w: Word, turns: seq<SpeakerTurn>, order: seq<nat>, left: nat, best: Option<nat>, b: nat)
    requires Passed(turns, order, left, best, w.time.start)
  {
    && b < |turns|
    && (Touches(w, turns) ==> IsChoice(w, turns, b))
    && (!Touches(w, turns) ==> (best == Some(b) || b in order[left..]))
    && (!Touches(w, turns) && best.Some? && best.value != b ==> Nearer(w, turns, b, best.value))
    && (!Touches(w, turns) ==> forall k :: left <= k < |order| ==> order[k] == b || Nearer(w, turns, b, order[k]))
  }

  ghost predicate SweptFrom(w: Word, turns: seq<SpeakerTurn>, order: seq<nat>, left: nat, best: Option<nat>,
      speaker: Option<nat>, confidence: real) {
    Arrived(turns, order, left, best, w.time.start) &&
    exists b: nat :: Picks(w, turns, order, left, best, b)
      && speaker == Some(turns[b].speaker) && confidence == Scaled(w, Overlap(w.time, turns[b].time))
  }

  /** The sweep's answer for a word, for any turns whatever. */
  ghost predicate Swept(w: Word, turns: seq<SpeakerTurn>, speaker: Option<nat>, confidence: real) {
    if turns == [] then speaker == None && confidence == w.confidence
    else exists order, left: nat, best :: SweptFrom(w, turns, order, left, best, speaker, confidence)
  }

  /** Among straight turns that end before the word starts, the last to end is the nearest. */
  lemma LaterIsNearer(w: Word, turns: seq<SpeakerTurn>, a: nat, b: nat)
    requires a < |turns| && b < |turns| && Straight(w, turns[a].time) && Straight(w, turns[b].time)
    requires turns[a].time.end <= w.time.start && turns[b].time.end <= w.time.start
    requires Later(turns, a, b)
    ensures Nearer(w, turns, a, b)
  {
  }

  method AttributeOneSweep(w: Word, turns: seq<SpeakerTurn>, order: seq<nat>, left: nat, best: Option<nat>)
    returns (speaker: Option<nat>, confidence: real)
    requires turns != [] && Arrived(turns, order, left, best, w.time.start)
    ensures SweptFrom(w, turns, order, left, best, speaker, confidence)
    ensures Clear(w, turns) ==> Tagged(w, turns, speaker, confidence)
  {
    var bi, bov := WidestFrom(w, turns, order, left);
    WindowIsEnough(w, turns, order, left, best, bi);
    if bi.Some? && bov > 0.0 {
      assert Picks(w, turns, order, left, best, bi.value);
      speaker, confidence := Some(turns[bi.value].speaker), Weighed(w, bov);
    } else {
      var nearest := NearestFrom(w, turns, order, left, best);
      assert Picks(w, turns, order, left, best, nearest);
      assert !(Overlap(w.time, turns[nearest].time) > 0.0);
      speaker, confidence := Some(turns[nearest].speaker), w.confidence;
    }
    if Clear(w, turns) {
      SweptFromIsTagged(w, turns, order, left, best, speaker, confidence);
    }
  }

  /** The widest overlap among the turns from `left` on that start before the word ends. */
  method WidestFrom(w: Word, turns: seq<SpeakerTurn>, order: seq<nat>, left: nat) returns (bi: Option<nat>, bov: real)
    requires SortedOrder(Starts(turns), order) && left <= |order|
    ensures bi.Some? ==> bi.value < |turns| && bov == Overlap(w.time, turns[bi.value].time) > 0.0
    ensures forall k :: left <= k < |order| && Overlap(w.time, turns[order[k]].time) > 0.0 ==>
      bi.Some? && (order[k] == bi.value || Wider(w, turns, bi.value, order[k]))
  {
    bi, bov := None, 0.0;
    var j := left;
    while j < |order|
      invariant left <= j <= |order|
      invariant bi.Some? ==> bi.value < |turns| && bov == Overlap(w.time, turns[bi.value].time) > 0.0
      invariant forall k :: left <= k < j && Overlap(w.time, turns[order[k]].time) > 0.0 ==>
        bi.Some? && (order[k] == bi.value || Wider(w, turns, bi.value, order[k]))
    {
      var ti := order[j];
      var t := turns[ti];
      if t.time.start >= w.time.end {
        forall k | j <= k < |order| ensures Overlap(w.time, turns[order[k]].time) == 0.0 {
          assert Starts(turns)[order[j]] <= Starts(turns)[order[k]];
        }
        break;
      }
      var ov := Overlap(w.time, t.time);
      if ov > 0.0 {
        var take := match bi
          case None => true
          case Some(cur) => ov > bov || (ov == bov && BetterTurn(ti, cur, turns));
        if take {
          bi, bov := Some(ti), ov;
        }
      }
      j := j + 1;
    }
  }

  /** Passed turns do not overlap the word, so the window decides. */
  lemma WindowIsEnough(w: Word, turns: seq<SpeakerTurn>, order: seq<nat>, left: nat, best: Option<nat>, bi: Option<nat>)
    requires Passed(turns, order, left, best, w.time.start)
    requires bi.Some? ==> bi.value < |turns| && Overlap(w.time, turns[bi.value].time) > 0.0
    requires forall k :: left <= k < |order| && Overlap(w.time, turns[order[k]].time) > 0.0 ==>
      bi.Some? && (order[k] == bi.value || Wider(w, turns, bi.value, order[k]))
    ensures bi.Some? ==> IsChoice(w, turns, bi.value)
    ensures bi.None? ==> !Touches(w, turns)
  {
    forall i | 0 <= i < |turns| && Overlap(w.time, turns[i].time) > 0.0
      ensures bi.Some? && (i == bi.value || Wider(w, turns, bi.value, i))
    {
      assert |Starts(turns)| == |turns|;
      assert Listed(order, i);
      var k :| 0 <= k < |order| && order[k] == i;
      assert k >= left;
    }
  }

  /** The nearest of the best passed turn and every turn from `left` on. */
  method NearestFrom(w: Word, turns: seq<SpeakerTurn>, order: seq<nat>, left: nat,
      best: Option<nat>) returns (nearest: nat)
    requires turns != [] && Passed(turns, order, left, best, w.time.start)
    ensures nearest < |turns| && (best == Some(nearest) || nearest in order[left..])
    ensures best.Some? ==> best.value == nearest || Nearer(w, turns, nearest, best.value)
    ensures forall k :: left <= k < |order| ==> order[k] == nearest || Nearer(w, turns, nearest, order[k])
  {
    var at := best;
    var minGap := if best.Some? then Gap(w.time, turns[best.value].time) else 0.0;
    assert |Starts(turns)| == |turns|;
    for j := left to |order|
      invariant at.None? <==> best.None? && j == left
      invariant at.Some? ==> best == at || at.value in order[left..]
      invariant at.Some? ==> at.value < |turns| && minGap == Gap(w.time, turns[at.value].time)
      invariant best.Some? ==> best.value == at.value || Nearer(w, turns, at.value, best.value)
      invariant forall k :: left <= k < j ==> order[k] == at.value || Nearer(w, turns, at.value, order[k])
    {
      var ti := order[j];
      var g := Gap(w.time, turns[ti].time);
      var take := match at
        case None => true
        case Some(cur) => g < minGap || (g == minGap && BetterTurn(ti, cur, turns));
      if take {
        assert order[left..][j - left] == ti;
        at, minGap := Some(ti), g;
      }
    }
    nearest := UnwrapOr(at, 0);
  }

  /** One representative stands in for all passed turns. */
  lemma NearestOfAll(w: Word, turns: seq<SpeakerTurn>, order: seq<nat>, left: nat, best: Option<nat>, nearest: nat)
    requires Passed(turns, order, left, best, w.time.start) && AllStraight(w, turns)
    requires nearest < |turns| && !Touches(w, turns)
    requires best.Some? ==> best.value == nearest || Nearer(w, turns, nearest, best.value)
    requires forall k :: left <= k < |order| ==> order[k] == nearest || Nearer(w, turns, nearest, order[k])
    ensures IsChoice(w, turns, nearest)
  {
    assert |Starts(turns)| == |turns|;
    forall i | 0 <= i < |turns| && i != nearest ensures Nearer(w, turns, nearest, i) {
      assert Listed(order, i);
      var k :| 0 <= k < |order| && order[k] == i;
      if k < left && i != best.value {
        LaterIsNearer(w, turns, best.value, i);
      }
    }
  }

  lemma SweptFromIsTagged(w: Word, turns: seq<SpeakerTurn>, order: seq<nat>, left: nat, best: Option<nat>,
      speaker: Option<nat>, confidence: real)
    requires turns != [] && Clear(w, turns) && SweptFrom(w, turns, order, left, best, speaker, confidence)
    ensures Tagged(w, turns, speaker, confidence)
  {
    var b: nat :| Picks(w, turns, order, left, best, b)
      && speaker == Some(turns[b].speaker) && confidence == Scaled(w, Overlap(w.time, turns[b].time));
    if !Touches(w, turns) { NearestOfAll(w, turns, order, left, best, b); }
    assert Tags(w, turns, b, speaker, confidence);
  }

  /** If a turn overlaps the word or all are straight to it, the sweep's answer is the scan's. */
  lemma SweptIsTagged(w: Word, turns: seq<SpeakerTurn>, speaker: Option<nat>, confidence: real)
    requires Clear(w, turns) && Swept(w, turns, speaker, confidence)
    ensures Tagged(w, turns, speaker, confidence)
  {
    if turns != [] {
      var order, left: nat, best :| SweptFrom(w, turns, order, left, best, speaker, confidence);
      SweptFromIsTagged(w, turns, order, left, best, speaker, confidence);
    }
  }

  /** Move `left` past every turn that ends by `t`, keeping the one that ends last. */
  method AdvanceLeft(turns: seq<SpeakerTurn>, order: seq<nat>, left0: nat, best0: Option<nat>, t: real)
    returns (left: nat, best: Option<nat>)
    requires Passed(turns, order, left0, best0, t)
    ensures Arrived(turns, order, left, best, t)
  {
    left, best := left0, best0;
    while left < |order|
      invariant Passed(turns, order, left, best, t)
    {
      var ti := order[left];
      if turns[ti].time.end > t {
        break;
      }
      var take := match best
        case None => true
        case Some(cur) => turns[ti].time.end > turns[cur].time.end ||
                          (turns[ti].time.end == turns[cur].time.end && BetterTurn(ti, cur, turns));
      if take {
        best := Some(ti);
      }
      left := left + 1;
    }
  }

  /** `a` is the word as it came, with the sweep's answer. */
  ghost predicate Aligned(w: Word, turns: seq<SpeakerTurn>, flag: bool, a: WordAlignment) {
    && Swept(w, turns, a.speaker, a.confidence) && a == WordAlignment(w.word, w.time, a.speaker, a.confidence, flag)
    && (Clear(w, turns) ==> Tagged(w, turns, a.speaker, a.confidence))
  }

  /** The first `n` words of the order have their final alignment. */
  ghost predicate Written(words: seq<Word>, turns: seq<SpeakerTurn>, flags: seq<bool>, order: seq<nat>, n: nat,
                          out: seq<WordAlignment>) {
    && |out| == |words| == |flags| && n <= |order|
    && forall k :: 0 <= k < n ==> order[k] < |words| && Aligned(words[order[k]], turns, flags[order[k]], out[order[k]])
  }

  lemma WriteOne(words: seq<Word>, turns: seq<SpeakerTurn>, flags: seq<bool>, order: seq<nat>, n: nat,
                 out: seq<WordAlignment>, a: WordAlignment)
    requires Written(words, turns, flags, order, n, out) && n < |order| && order[n] < |words|
    requires Aligned(words[order[n]], turns, flags[order[n]], a)
    ensures Written(words, turns, flags, order, n + 1, out[order[n] := a])
  {
  }

  /** Tag every word by one pass over the sorted words and turns. */
  method AttributeWordsSweep(words: seq<Word>, turns: seq<SpeakerTurn>,
      flags: seq<bool>) returns (out: seq<WordAlignment>)
    requires |flags| == |words|
    ensures |out| == |words|
    ensures forall i :: 0 <= i < |words| ==> Aligned(words[i], turns, flags[i], out[i])
    ensures forall i :: 0 <= i < |words| && Clear(words[i], turns) ==>
      MeantTag(words[i], turns, out[i].speaker, out[i].confidence)
  {
    out := seq(|words|, i requires 0 <= i < |words| => MakeAlignment(words[i], None, words[i].confidence, flags[i]));
    if turns == [] {
      assert forall i :: 0 <= i < |words| ==> Aligned(words[i], turns, flags[i], out[i]);
      return;
    }
    var turnOrder := SortOrder(Starts(turns));
    var wordOrder := SortOrder(seq(|words|, i requires 0 <= i < |words| => words[i].time.start));
    out := SweepSorted(words, turns, flags, turnOrder, wordOrder, out);
    forall i | 0 <= i < |words| ensures Aligned(words[i], turns, flags[i], out[i]) {
      assert Listed(wordOrder, i);
    }
    forall i | 0 <= i < |words| && Clear(words[i], turns)
      ensures MeantTag(words[i], turns, out[i].speaker, out[i].confidence)
    {
      assert Aligned(words[i], turns, flags[i], out[i]);
      TagMeans(words[i], turns, out[i].speaker, out[i].confidence);
    }
  }

  /** Visit the words in start order, never moving `left` back. */
  method SweepSorted(words: seq<Word>, turns: seq<SpeakerTurn>, flags: seq<bool>, turnOrder: seq<nat>,
      wordOrder: seq<nat>, filled: seq<WordAlignment>)
    returns (out: seq<WordAlignment>)
    requires |filled| == |flags| == |words| && turns != []
    requires SortedOrder(Starts(turns), turnOrder)
    requires forall k :: 0 <= k < |wordOrder| ==> wordOrder[k] < |words|
    requires forall a, b :: 0 <= a < b < |wordOrder| ==>
      words[wordOrder[a]].time.start <= words[wordOrder[b]].time.start
    ensures Written(words, turns, flags, wordOrder, |wordOrder|, out)
  {
    out := filled;
    var left := 0;
    var best: Option<nat> := None;
    for n := 0 to |wordOrder|
      invariant n < |wordOrder| ==> Passed(turns, turnOrder, left, best, words[wordOrder[n]].time.start)
      invariant Written(words, turns, flags, wordOrder, n, out)
    {
      var wi := wordOrder[n];
      left, best := AdvanceLeft(turns, turnOrder, left, best, words[wi].time.start);
      var speaker, conf := AttributeOneSweep(words[wi], turns, turnOrder, left, best);
      WriteOne(words, turns, flags, wordOrder, n, out, MakeAlignment(words[wi], speaker, conf, flags[wi]));
      out := out[wi := MakeAlignment(words[wi], speaker, conf, flags[wi])];
      if n + 1 < |wordOrder| {
        PassedLater(turns, turnOrder, left, best, words[wi].time.start, words[wordOrder[n + 1]].time.start);
      }
    }
  }

  lemma PassedLater(turns: seq<SpeakerTurn>, order: seq<nat>, left: nat, best: Option<nat>, t: real, t': real)
    requires Passed(turns, order, left, best, t) && t <= t'
    ensures Passed(turns, order, left, best, t')
  {
  }

  // ----- the sweep against the scan

  /** For a word that a turn overlaps, or to which all turns are straight, sweep and scan agree. */
  method SweepMatchesScan(words: seq<Word>, turns: seq<SpeakerTurn>, flags: seq<bool>, i: nat)
    returns (out: seq<WordAlignment>, speaker: Option<nat>, confidence: real)
    requires |flags| == |words| && i < |words|
    ensures |out| == |words| && Tagged(words[i], turns, speaker, confidence)
    ensures Clear(words[i], turns) ==> out[i].speaker == speaker && out[i].confidence == confidence
  {
    out := AttributeWordsSweep(words, turns, flags);
    speaker, confidence := AttributeOneReference(words[i], turns);
    if Clear(words[i], turns) {
      TagIsUnique(words[i], turns, out[i].speaker, out[i].confidence, speaker, confidence);
    }
  }

  /** Every turn is straight to the word or lies at `x`. */
  predicate StraightBut(w: Word, x: TimeRange, turns: seq<SpeakerTurn>) {
    forall i :: 0 <= i < |turns| ==> Straight(w, turns[i].time) || turns[i].time == x
  }

  /** The sweep answers as the scan does on every list of straight turns and turns at `x`. */
  ghost predicate Harmless(w: Word, x: TimeRange) {
    forall turns, speaker, confidence ::
      StraightBut(w, x, turns) && Swept(w, turns, speaker, confidence) ==> Tagged(w, turns, speaker, confidence)
  }

  /** Two turns passed by the word, the second to start being turn 1: the sweep answers the
      one that ends last. */
  lemma TwoPassed(w: Word, turns: seq<SpeakerTurn>, last: nat, speaker: Option<nat>, confidence: real)
    requires |turns| == 2 && turns[0].time.start < turns[1].time.start && !Touches(w, turns)
    requires turns[0].time.end <= w.time.start && turns[1].time.end <= w.time.start
    requires last < 2 && turns[last].time.end > turns[1 - last].time.end
    requires Swept(w, turns, speaker, confidence)
    ensures speaker == Some(turns[last].speaker)
  {
    var order, left: nat, best :| SweptFrom(w, turns, order, left, best, speaker, confidence);
    OrderOfTwo(turns, order, left, best, w.time.start, last);
  }

  lemma OrderOfTwo(turns: seq<SpeakerTurn>, order: seq<nat>, left: nat, best: Option<nat>, t: real, last: nat)
    requires |turns| == 2 && turns[0].time.end <= t && turns[1].time.end <= t && Arrived(turns, order, left, best, t)
    requires last < 2 && turns[last].time.end > turns[1 - last].time.end
    ensures left == |order| == 2 && best == Some(last)
  {
    assert |Starts(turns)| == 2;
    assert left == 2;
    assert Listed(order, last);
    var k :| 0 <= k < 2 && order[k] == last;
    assert turns[order[k]].time.end == turns[last].time.end;
  }

  lemma TwoInOrder(turns: seq<SpeakerTurn>)
    requires |turns| == 2 && turns[0].time.start < turns[1].time.start
    ensures SortedOrder(Starts(turns), [0, 1])
  {
    var order: seq<nat> := [0, 1];
    assert forall i: nat :: i < 2 ==> order[i] == i && Listed(order, i);
  }

  /** The sweep does answer so: such a state is reached. */
  lemma TwoReached(w: Word, turns: seq<SpeakerTurn>, last: nat)
    requires |turns| == 2 && turns[0].time.start < turns[1].time.start && !Touches(w, turns)
    requires turns[0].time.end <= w.time.start && turns[1].time.end <= w.time.start
    requires last < 2 && turns[last].time.end > turns[1 - last].time.end
    ensures Swept(w, turns, Some(turns[last].speaker), Scaled(w, Overlap(w.time, turns[last].time)))
  {
    var order: seq<nat> := [0, 1];
    TwoInOrder(turns);
    assert order[0] == 0 && order[1] == 1 && order[2..] == [];
    assert Passed(turns, order, 2, Some(last), w.time.start);
    assert Picks(w, turns, order, 2, Some(last), last);
    assert SweptFrom(w, turns, order, 2, Some(last), Some(turns[last].speaker),
      Scaled(w, Overlap(w.time, turns[last].time)));
  }

  /** A second turn, straight to the word, that the sweep ranks wrongly against `x`. */
  function Rival(w: Word, x: TimeRange): TimeRange {
    var end := w.time.start - (w.time.start - x.end + x.start - w.time.end) / 2.0;
    TimeRange(Min(end, w.time.end) - 1.0, end)
  }

  /** A turn that is not straight misleads the sweep beside its rival. */
  lemma CrookedMisleads(w: Word, x: TimeRange) returns (turns: seq<SpeakerTurn>, last: nat, near: nat)
    requires !Straight(w, x)
    ensures turns == [SpeakerTurn(0, Rival(w, x)), SpeakerTurn(1, x)] && StraightBut(w, x, turns)
    ensures last < 2 && near == 1 - last && Swept(w, turns, Some(last), w.confidence)
    ensures forall s, c :: Swept(w, turns, s, c) ==> s == Some(last)
    ensures forall s, c :: Tagged(w, turns, s, c) ==> s == Some(near)
  {
    var y := Rival(w, x);
    turns := [SpeakerTurn(0, y), SpeakerTurn(1, x)];
    last := if y.end > x.end then 0 else 1;
    near := 1 - last;
    assert Gap(w.time, y) == w.time.start - y.end && Gap(w.time, x) == x.start - w.time.end;
    assert Overlap(w.time, y) == 0.0 && Overlap(w.time, x) == 0.0;
    assert !Touches(w, turns);
    TwoReached(w, turns, last);
    forall s, c | Swept(w, turns, s, c) ensures s == Some(last) {
      TwoPassed(w, turns, last, s, c);
    }
    forall s, c | Tagged(w, turns, s, c) ensures s == Some(near) {
      NearerIsTagged(w, turns, last, near, s, c);
    }
  }

  /** Of two turns that do not overlap the word the scan answers the nearer. */
  lemma NearerIsTagged(w: Word, turns: seq<SpeakerTurn>, last: nat, near: nat, s: Option<nat>, c: real)
    requires |turns| == 2 && last < 2 && near == 1 - last && !Touches(w, turns)
    requires Gap(w.time, turns[near].time) < Gap(w.time, turns[last].time) && Tagged(w, turns, s, c)
    ensures s == Some(turns[near].speaker)
  {
    var b: nat :| Tags(w, turns, b, s, c);
    assert !Nearer(w, turns, last, near);
  }

  /** A turn may stand in any otherwise straight list exactly when it is straight itself. */
  lemma HarmlessExactlyWhen(w: Word, x: TimeRange)
    ensures Harmless(w, x) <==> Straight(w, x)
  {
    if Straight(w, x) {
      forall turns, speaker, confidence | StraightBut(w, x, turns) && Swept(w, turns, speaker, confidence)
        ensures Tagged(w, turns, speaker, confidence)
      {
        SweptIsTagged(w, turns, speaker, confidence);
      }
    } else {
      var turns, last, near := CrookedMisleads(w, x);
      assert !Tagged(w, turns, Some(last), w.confidence);
    }
  }

  /** Sweep and scan run on a word and two turns, of which the second ends before it starts:
      the sweep answers the far turn, the scan the near one. */
  method InvertedTurnMisleads() returns (swept: Option<nat>, scanned: Option<nat>)
    ensures swept == Some(1) && scanned == Some(0)
  {
    var w := Word("so", TimeRange(10.0, 11.0), 1.0);
    var turns := [SpeakerTurn(0, TimeRange(2.0, 8.0)), SpeakerTurn(1, TimeRange(20.0, 9.0))];
    var out := AttributeWordsSweep([w], turns, [false]);
    var speaker, confidence := AttributeOneReference(w, turns);
    assert Gap(w.time, turns[0].time) == 2.0 && Gap(w.time, turns[1].time) == 9.0;
    assert !Touches(w, turns);
    assert Aligned([w][0], turns, false, out[0]);
    TwoPassed(w, turns, 1, out[0].speaker, out[0].confidence);
    ghost var b: nat :| Tags(w, turns, b, speaker, confidence);
    assert !Nearer(w, turns, 1, 0);
    swept, scanned := out[0].speaker, speaker;
  }

  // ----- timestamp interpolation

  predicate NeedsInterpolation(w: Word) {
    !(w.time.end > w.time.start)
  }

  const EPS := 0.001

  /** Where an unusable word is placed, given its nearest usable neighbours. */
  function Placed(prev: Option<Word>, next: Option<Word>): TimeRange {
    var (start, end) := match (prev, next)
      case (Some(p), Some(n)) => (p.time.end, n.time.start)
      case (Some(p), None) => (p.time.end, p.time.end + EPS)
      case (None, Some(n)) => (Max(n.time.start - EPS, 0.0), n.time.start)
      case (None, None) => (0.0, EPS);
    if end > start then TimeRange(start, end) else TimeRange(Max(start, 0.0), Max(start, 0.0) + EPS)
  }

  /** With usable words on both sides and room between them, the span is all of that room;
      otherwise it is a millisecond long, after the left one if there is one, else up to the
      right one, and never before zero. */
  lemma PlacedSpans(prev: Option<Word>, next: Option<Word>)
    ensures var t := Placed(prev, next);
      && (prev.Some? && next.Some? && prev.value.time.end < next.value.time.start ==>
            t == TimeRange(prev.value.time.end, next.value.time.start))
      && (prev.Some? && next.Some? && prev.value.time.end >= next.value.time.start ==>
            t.end == t.start + 0.001 && t.start == if prev.value.time.end > 0.0 then prev.value.time.end else 0.0)
      && (prev.Some? && next.None? ==> t == TimeRange(prev.value.time.end, prev.value.time.end + 0.001))
      && (prev.None? && next.Some? && next.value.time.start >= 0.001 ==>
            t == TimeRange(next.value.time.start - 0.001, next.value.time.start))
      && (prev.None? && next.Some? && 0.0 < next.value.time.start < 0.001 ==>
            t == TimeRange(0.0, next.value.time.start))
      && (prev.None? && (next.None? || next.value.time.start <= 0.0) ==> t == TimeRange(0.0, 0.001))
  {
  }

  /** Word `j` is usable and every word strictly between `j` and `i` is not. */
  ghost predicate NeighbourAt(words: seq<Word>, i: nat, j: nat) {
    && i < |words| && j < |words| && j != i && !NeedsInterpolation(words[j])
    && forall k :: i < k < j || j < k < i ==> NeedsInterpolation(words[k])
  }

  ghost predicate PrevUsable(words: seq<Word>, i: nat, p: Option<Word>) {
    if p.None? then forall j :: 0 <= j < i && j < |words| ==> NeedsInterpolation(words[j])
    else exists j: nat :: j < i && NeighbourAt(words, i, j) && words[j] == p.value
  }

  ghost predicate NextUsable(words: seq<Word>, i: nat, p: Option<Word>) {
    if p.None? then forall j :: i < j < |words| ==> NeedsInterpolation(words[j])
    else exists j: nat :: j > i && NeighbourAt(words, i, j) && words[j] == p.value
  }

  method FindPrev(words: seq<Word>, i: nat) returns (p: Option<Word>)
    requires i < |words|
    ensures PrevUsable(words, i, p)
  {
    var j := i;
    while j > 0
      invariant 0 <= j <= i && forall k :: j <= k < i ==> NeedsInterpolation(words[k])
    {
      j := j - 1;
      if !NeedsInterpolation(words[j]) {
        assert NeighbourAt(words, i, j);
        return Some(words[j]);
      }
    }
    p := None;
  }

  method FindNext(words: seq<Word>, i: nat) returns (p: Option<Word>)
    requires i < |words|
    ensures NextUsable(words, i, p)
  {
    var j := i + 1;
    while j < |words|
      invariant i < j <= |words| && forall k :: i < k < j ==> NeedsInterpolation(words[k])
    {
      if !NeedsInterpolation(words[j]) {
        assert NeighbourAt(words, i, j);
        return Some(words[j]);
      }
      j := j + 1;
    }
    p := None;
  }

  /** `v` is `w` with a usable time: its own when usable, else one placed between
      its nearest usable neighbours. */
  ghost predicate Timed(words: seq<Word>, i: nat, v: Word, flag: bool)
    requires i < |words|
  {
    && v.word == words[i].word && v.confidence == words[i].confidence && !NeedsInterpolation(v)
    && flag == NeedsInterpolation(words[i])
    && (!flag ==> v == words[i])
    && (flag ==>
      exists prev, next :: PrevUsable(words, i, prev) && NextUsable(words, i, next) && v.time == Placed(prev, next))
  }

  /** Give every unusable word a short, forward time span. */
  method InterpolateWordTimestamps(words: seq<Word>) returns (out: seq<Word>, flags: seq<bool>)
    ensures |out| == |flags| == |words|
    ensures forall i :: 0 <= i < |words| ==> Timed(words, i, out[i], flags[i])
    ensures forall i :: 0 <= i < |words| ==> out[i].time.start < out[i].time.end
    ensures forall i :: 0 <= i < |words| ==> (flags[i] <==> words[i].time.end <= words[i].time.start)
    ensures forall i :: 0 <= i < |words| && words[i].time.start < words[i].time.end ==> out[i] == words[i]
  {
    out, flags := words, seq(|words|, _ => false);
    for i := 0 to |words|
      invariant |out| == |flags| == |words|
      invariant forall k :: 0 <= k < i ==> Timed(words, k, out[k], flags[k])
      invariant forall k :: i <= k < |words| ==> out[k] == words[k] && !flags[k]
    {
      if NeedsInterpolation(words[i]) {
        var prev := FindPrev(words, i);
        var next := FindNext(words, i);
        flags := flags[i := true];
        out := out[i := out[i].(time := Placed(prev, next))];
      }
    }
  }

  /** The default pipeline: interpolate, then sweep. Whatever timestamps come in, with
      forward turns every word is tagged as the full scan would tag its timed copy, and
      it has a speaker whenever there is a turn. */
  method AttributeWords(words: seq<Word>, turns: seq<SpeakerTurn>)
    returns (out: seq<WordAlignment>, ghost timed: seq<Word>)
    ensures |out| == |timed| == |words|
    ensures forall i :: 0 <= i < |words| ==>
      Timed(words, i, timed[i], out[i].interpolated) && Aligned(timed[i], turns, out[i].interpolated, out[i])
    ensures AllProper(turns) ==> forall i :: 0 <= i < |words| ==>
      && Tagged(timed[i], turns, out[i].speaker, out[i].confidence)
      && MeantTag(timed[i], turns, out[i].speaker, out[i].confidence)
    ensures turns != [] ==> forall i :: 0 <= i < |words| ==> out[i].speaker.Some?
  {
    var owned, flags := InterpolateWordTimestamps(words);
    timed := owned;
    assert forall i :: 0 <= i < |words| ==> Timed(words, i, owned[i], flags[i]);
    out := AttributeWordsSweep(owned, turns, flags);
    assert forall i :: 0 <= i < |words| ==> Aligned(owned[i], turns, flags[i], out[i]);
    if AllProper(turns) {
      forall i | 0 <= i < |words|
        ensures Tagged(timed[i], turns, out[i].speaker, out[i].confidence)
        ensures MeantTag(timed[i], turns, out[i].speaker, out[i].confidence)
      {
        assert Timed(words, i, owned[i], flags[i]);
        ForwardIsClear(owned[i], turns);
      }
    }
  }
}

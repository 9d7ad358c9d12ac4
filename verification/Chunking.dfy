/** Long audio in overlapping chunks, stitched at the middle of each overlap. The
    recogniser is a parameter: it gives the words of a sample range with global
    times. */
module Chunking {

  datatype Word = Word(text: string, start: real, end: real)

  function Mid(w: Word): real {
    (w.start + w.end) / 2.0
  }

  type Recogniser = (nat, nat) -> seq<Word>

  datatype Config = Config(chunkSecs: real, overlapSecs: real)

  /** Clamp the chunk to at least a second and the overlap to half a chunk; what needs no
      clamping is left as asked. */
  function WithChunking(chunk: real, overlap: real): (c: Config)
    ensures Clamped(c)
    ensures Clamped(Config(chunk, overlap)) ==> c == Config(chunk, overlap)
    ensures chunk <= 1.0 ==> c.chunkSecs == 1.0
    ensures chunk >= 1.0 ==> c.chunkSecs == chunk
    ensures overlap <= 0.0 ==> c.overlapSecs == 0.0
    ensures overlap >= c.chunkSecs * 0.5 ==> c.overlapSecs == c.chunkSecs * 0.5
  {
    var chunkSecs := if chunk > 1.0 then chunk else 1.0;
    var high := chunkSecs * 0.5;
    Config(chunkSecs, if overlap < 0.0 then 0.0 else if overlap > high then high else overlap)
  }

  predicate Clamped(c: Config) {
    c.chunkSecs >= 1.0 && 0.0 <= c.overlapSecs <= c.chunkSecs * 0.5
  }

  /** How many samples so many seconds are, not rounded. */
  function Span(secs: real, rate: nat): real {
    secs * rate as real
  }

  /** Whole samples in so many seconds. */
  function Samples(secs: real, rate: nat): nat
    requires secs >= 0.0
  {
    ScaleNonNegative(secs, rate);
    Span(secs, rate).Floor
  }

  /** A chunk, and an overlap, are the whole samples of their seconds, rounded down. */
  lemma SamplesAreWhole(secs: real, rate: nat)
    requires secs >= 0.0
    ensures Samples(secs, rate) as real <= secs * rate as real < Samples(secs, rate) as real + 1.0
  {
    ScaleNonNegative(secs, rate);
  }

  lemma ScaleNonNegative(secs: real, rate: nat)
    requires secs >= 0.0
    ensures Span(secs, rate) >= 0.0
  {
  }

  function ChunkLen(c: Config, rate: nat): nat
    requires Clamped(c)
  {
    Samples(c.chunkSecs, rate)
  }

  function StepLen(c: Config, rate: nat): (step: nat)
    requires Clamped(c)
    ensures step >= 1
  {
    var chunk, overlap := ChunkLen(c, rate), Samples(c.overlapSecs, rate);
    if chunk >= overlap + 1 then chunk - overlap else 1
  }

  function Offset(start: nat, rate: nat): real
    requires rate > 0
  {
    start as real / rate as real
  }

  function Seam(c: Config, start: nat, rate: nat): real
    requires rate > 0
  {
    Offset(start, rate) + c.overlapSecs / 2.0
  }

  // ----- keeping words on one side of a time

  function Before(ws: seq<Word>, t: real): seq<Word> {
    if ws == [] then []
    else if Mid(ws[0]) < t then [ws[0]] + Before(ws[1..], t)
    else Before(ws[1..], t)
  }

  function From(ws: seq<Word>, t: real): seq<Word> {
    if ws == [] then []
    else if Mid(ws[0]) >= t then [ws[0]] + From(ws[1..], t)
    else From(ws[1..], t)
  }

  lemma {:induction false} Kept(ws: seq<Word>, t: real)
    ensures forall w :: w in Before(ws, t) <==> w in ws && (w.start + w.end) / 2.0 < t
    ensures forall w :: w in From(ws, t) <==> w in ws && (w.start + w.end) / 2.0 >= t
  {
    if ws != [] {
      Kept(ws[1..], t);
      assert ws == [ws[0]] + ws[1..];
    }
  }

  lemma KeptOfBoth(acc: seq<Word>, next: seq<Word>, seam: real)
    ensures forall w :: w in Before(acc, seam) + From(next, seam) <==>
      (w in acc && (w.start + w.end) / 2.0 < seam) || (w in next && (w.start + w.end) / 2.0 >= seam)
  {
    Kept(acc, seam);
    Kept(next, seam);
  }

  /** Keep the old words before the seam and the new ones from it on. */
  method StitchAt(acc: seq<Word>, next: seq<Word>, seam: real) returns (r: seq<Word>)
    ensures r == Before(acc, seam) + From(next, seam)
    ensures forall w :: w in r <==>
      (w in acc && (w.start + w.end) / 2.0 < seam) || (w in next && (w.start + w.end) / 2.0 >= seam)
  {
    r := [];
    for i := 0 to |acc|
      invariant r + Before(acc[i..], seam) == Before(acc, seam)
    {
      assert acc[i..][1..] == acc[i + 1..];
      if Mid(acc[i]) < seam { r := r + [acc[i]]; }
    }
    assert acc[|acc|..] == [] && r + [] == r;
    ghost var kept := r;
    for i := 0 to |next|
      invariant r + From(next[i..], seam) == kept + From(next, seam)
    {
      assert next[i..][1..] == next[i + 1..];
      if Mid(next[i]) >= seam { r := r + [next[i]]; }
    }
    assert next[|next|..] == [] && r + [] == r;
    KeptOfBoth(acc, next, seam);
  }

  // ----- the chunk loop

  /** What the loop returns from chunk `start` on, given what it has so far. */
  ghost function Rest(hear: Recogniser, c: Config, len: nat, rate: nat, start: nat, acc: seq<Word>): seq<Word>
    requires Clamped(c) && rate > 0
    decreases len - start
  {
    if ChunkEnd(c, len, rate, start) >= len then acc
    else
      StepFitsChunk(c, rate);
      var next := start + StepLen(c, rate);
      Rest(hear, c, len, rate, next, Stitched(hear, c, len, rate, next, acc))
  }

  ghost function Stitched(hear: Recogniser, c: Config, len: nat, rate: nat, start: nat, acc: seq<Word>): seq<Word>
    requires Clamped(c) && rate > 0 && start <= len
  {
    var seam := Seam(c, start, rate);
    Before(acc, seam) + From(hear(start, ChunkEnd(c, len, rate, start)), seam)
  }

  function ChunkEnd(c: Config, len: nat, rate: nat, start: nat): nat
    requires Clamped(c)
  {
    if start + ChunkLen(c, rate) < len then start + ChunkLen(c, rate) else len
  }

  /** The whole transcription. */
  ghost function Transcript(hear: Recogniser, c: Config, len: nat, rate: nat): seq<Word>
    requires Clamped(c) && rate > 0
  {
    if len == 0 then []
    else if ChunkLen(c, rate) == 0 || len <= ChunkLen(c, rate) then hear(0, len)
    else Rest(hear, c, len, rate, 0, hear(0, ChunkEnd(c, len, rate, 0)))
  }

  lemma SpanMonotone(a: real, b: real, rate: nat)
    requires a <= b
    ensures Span(a, rate) <= Span(b, rate)
  {
  }

  lemma SpanHalf(secs: real, rate: nat)
    ensures Span(secs * 0.5, rate) == Span(secs, rate) * 0.5
  {
  }

  /** A step is shorter than a chunk, or as long when there is no overlap, so the
      next chunk always starts inside the audio. */
  lemma StepFitsChunk(c: Config, rate: nat)
    requires Clamped(c) && rate > 0
    ensures ChunkLen(c, rate) >= 1
    ensures StepLen(c, rate) == ChunkLen(c, rate) - Samples(c.overlapSecs, rate)
  {
    var x, y := Span(c.chunkSecs, rate), Span(c.overlapSecs, rate);
    SpanMonotone(1.0, c.chunkSecs, rate);
    SpanMonotone(c.overlapSecs, c.chunkSecs * 0.5, rate);
    SpanHalf(c.chunkSecs, rate);
    if x < 2.0 {
      assert y.Floor == 0;
    } else {
      assert y.Floor as real <= x - 1.0 < x.Floor as real;
    }
  }

  /** Chunks, overlaps and seams in samples and seconds: the chunk is the whole samples of its
      seconds, so is the part it shares with the next, and the seam is half an overlap in. */
  lemma ChunksInSeconds(c: Config, rate: nat, start: nat)
    requires Clamped(c) && rate > 0
    ensures ChunkLen(c, rate) as real <= c.chunkSecs * rate as real < ChunkLen(c, rate) as real + 1.0
    ensures var shared := ChunkLen(c, rate) - StepLen(c, rate);
      shared as real <= c.overlapSecs * rate as real < shared as real + 1.0
    ensures Seam(c, start, rate) == start as real / rate as real + c.overlapSecs / 2.0
  {
    SamplesAreWhole(c.chunkSecs, rate);
    SamplesAreWhole(c.overlapSecs, rate);
    StepFitsChunk(c, rate);
  }

  method Transcribe(hear: Recogniser, c: Config, len: nat, rate: nat) returns (acc: seq<Word>)
    requires Clamped(c) && rate > 0
    ensures acc == Transcript(hear, c, len, rate)
  {
    if len == 0 {
      return [];
    }
    var chunkLen := ChunkLen(c, rate);
    if chunkLen == 0 || len <= chunkLen {
      return hear(0, len);
    }
    var step := StepLen(c, rate);
    acc := [];
    var start, first := 0, true;
    while true
      invariant start <= len && (first <==> start == 0)
      invariant first ||
        Transcript(hear, c, len, rate) == Rest(hear, c, len, rate, start, Stitched(hear, c, len, rate, start, acc))
      decreases len - start
    {
      var end := if start + chunkLen < len then start + chunkLen else len;
      assert end == ChunkEnd(c, len, rate, start);
      var words := hear(start, end);
      if first {
        acc := words;
        first := false;
      } else {
        acc := StitchAt(acc, words, Seam(c, start, rate));
      }
      assert Transcript(hear, c, len, rate) == Rest(hear, c, len, rate, start, acc);
      if end >= len {
        break;
      }
      RestStep(hear, c, len, rate, start, acc);
      start := start + step;
    }
  }

  // ----- a faithful recogniser

  /** The true words, by midpoint, all inside the audio. */
  ghost predicate Truth(words: seq<Word>, len: nat, rate: nat)
    requires rate > 0
  {
    && (forall i, j :: 0 <= i < j < |words| ==> Mid(words[i]) <= Mid(words[j]))
    && (forall i :: 0 <= i < |words| ==> 0.0 <= Mid(words[i]) < Offset(len, rate))
  }

  /** Hears exactly the true words whose midpoint lies in the chunk. */
  ghost predicate Faithful(hear: Recogniser, words: seq<Word>, rate: nat)
    requires rate > 0
  {
    forall a: nat, b: nat :: a <= b ==> hear(a, b) == From(Before(words, Offset(b, rate)), Offset(a, rate))
  }

  lemma OffsetMonotone(a: nat, b: nat, rate: nat)
    requires rate > 0 && a <= b
    ensures Offset(a, rate) <= Offset(b, rate)
  {
  }

  lemma {:induction false} BeforeAll(ws: seq<Word>, t: real)
    requires forall i :: 0 <= i < |ws| ==> Mid(ws[i]) < t
    ensures Before(ws, t) == ws
  {
    if ws != [] { BeforeAll(ws[1..], t); }
  }

  lemma {:induction false} FromAll(ws: seq<Word>, t: real)
    requires forall i :: 0 <= i < |ws| ==> Mid(ws[i]) >= t
    ensures From(ws, t) == ws
  {
    if ws != [] { FromAll(ws[1..], t); }
  }

  lemma {:induction false} BeforeBefore(ws: seq<Word>, a: real, b: real)
    requires a <= b
    ensures Before(Before(ws, b), a) == Before(ws, a)
  {
    if ws != [] {
      BeforeBefore(ws[1..], a, b);
      assert ([ws[0]] + Before(ws[1..], b))[1..] == Before(ws[1..], b);
    }
  }

  lemma {:induction false} FromFrom(ws: seq<Word>, a: real, b: real)
    requires a <= b
    ensures From(From(ws, a), b) == From(ws, b)
  {
    if ws != [] {
      FromFrom(ws[1..], a, b);
      assert ([ws[0]] + From(ws[1..], a))[1..] == From(ws[1..], a);
    }
  }

  lemma {:induction false} FromOfBeforeEmpty(ws: seq<Word>, t: real)
    requires forall i :: 0 <= i < |ws| ==> Mid(ws[i]) >= t
    ensures Before(ws, t) == []
  {
    if ws != [] { FromOfBeforeEmpty(ws[1..], t); }
  }

  /** Cutting a sorted list at `a` and putting it together again loses nothing. */
  lemma {:induction false} CutAndJoin(ws: seq<Word>, a: real, b: real)
    requires a <= b && forall i, j :: 0 <= i < j < |ws| ==> Mid(ws[i]) <= Mid(ws[j])
    ensures Before(ws, a) + From(Before(ws, b), a) == Before(ws, b)
  {
    if ws != [] {
      if Mid(ws[0]) >= a {
        FromOfBeforeEmpty(ws, a);
        AllFromOfBefore(ws, a, b);
      } else {
        CutAndJoin(ws[1..], a, b);
        assert ([ws[0]] + Before(ws[1..], b))[1..] == Before(ws[1..], b);
      }
    }
  }

  lemma {:induction false} AllFromOfBefore(ws: seq<Word>, a: real, b: real)
    requires forall i :: 0 <= i < |ws| ==> Mid(ws[i]) >= a
    ensures From(Before(ws, b), a) == Before(ws, b)
  {
    if ws != [] {
      AllFromOfBefore(ws[1..], a, b);
      assert ([ws[0]] + Before(ws[1..], b))[1..] == Before(ws[1..], b);
    }
  }

  /** The seam of the next chunk lies inside both chunks. */
  predicate SeamCovered(c: Config, rate: nat)
    requires Clamped(c)
  {
    var x := Span(c.overlapSecs, rate);
    x == 0.0 || x >= 1.0
  }

  lemma SeamInside(c: Config, rate: nat, start: nat)
    requires Clamped(c) && rate > 0 && SeamCovered(c, rate)
    ensures var next := start + StepLen(c, rate);
      Offset(next, rate) <= Seam(c, next, rate) <= Offset(start + ChunkLen(c, rate), rate)
  {
    StepFitsChunk(c, rate);
    HalfFloor(Span(c.overlapSecs, rate));
    HalfFits(start + StepLen(c, rate), Samples(c.overlapSecs, rate), c.overlapSecs, rate);
  }

  lemma HalfFloor(x: real)
    requires x == 0.0 || x >= 1.0
    ensures x / 2.0 <= x.Floor as real
  {
  }

  lemma HalfFits(start: nat, shared: nat, secs: real, rate: nat)
    requires rate > 0 && Span(secs, rate) / 2.0 <= shared as real
    ensures Offset(start, rate) + secs / 2.0 <= Offset(start + shared, rate)
  {
    DivideOut(secs, rate);
    Quotients(Span(secs, rate) / 2.0, shared as real, rate);
    AddOffset(start, shared, rate);
  }

  lemma AddOffset(a: nat, b: nat, rate: nat)
    requires rate > 0
    ensures Offset(a + b, rate) == Offset(a, rate) + b as real / rate as real
  {
  }

  lemma DivideOut(secs: real, rate: nat)
    requires rate > 0
    ensures Span(secs, rate) / 2.0 / rate as real == secs / 2.0
  {
  }

  lemma Quotients(a: real, b: real, rate: nat)
    requires a <= b && rate > 0
    ensures a / rate as real <= b / rate as real
  {
  }

  /** One stitch takes "all words before this chunk's end" to the next chunk's end. */
  lemma StitchExtends(hear: Recogniser, words: seq<Word>, c: Config, len: nat, rate: nat, start: nat)
    requires Clamped(c) && rate > 0 && SeamCovered(c, rate) && Truth(words, len, rate) && Faithful(hear, words, rate)
    requires start + ChunkLen(c, rate) < len
    ensures var next := start + StepLen(c, rate);
      next <= len &&
      Stitched(hear, c, len, rate, next, Before(words, Offset(start + ChunkLen(c, rate), rate)))
        == Before(words, Offset(ChunkEnd(c, len, rate, next), rate))
  {
    StepFitsChunk(c, rate);
    SeamInside(c, rate, start);
    var next := start + StepLen(c, rate);
    var seam, end, end' := Seam(c, next, rate), Offset(start + ChunkLen(c, rate), rate), ChunkEnd(c, len, rate, next);
    OffsetMonotone(start + ChunkLen(c, rate), end', rate);
    BeforeBefore(words, seam, end);
    FromFrom(Before(words, Offset(end', rate)), Offset(next, rate), seam);
    CutAndJoin(words, seam, Offset(end', rate));
  }

  /** At the last chunk all the words are in. */
  lemma RestEnds(hear: Recogniser, words: seq<Word>, c: Config, len: nat, rate: nat, start: nat, acc: seq<Word>)
    requires Clamped(c) && rate > 0 && Truth(words, len, rate) && start + ChunkLen(c, rate) >= len
    requires acc == Before(words, Offset(len, rate))
    ensures Rest(hear, c, len, rate, start, acc) == words
  {
    BeforeAll(words, Offset(len, rate));
  }

  /** Before it, the loop goes on from the next chunk with all the words up to its end. */
  lemma RestGoesOn(hear: Recogniser, words: seq<Word>, c: Config, len: nat, rate: nat, start: nat, acc: seq<Word>)
      returns (next: nat, acc': seq<Word>)
    requires Clamped(c) && rate > 0 && SeamCovered(c, rate) && Truth(words, len, rate) && Faithful(hear, words, rate)
    requires start + ChunkLen(c, rate) < len && acc == Before(words, Offset(start + ChunkLen(c, rate), rate))
    ensures start < next <= len && acc' == Before(words, Offset(ChunkEnd(c, len, rate, next), rate))
    ensures Rest(hear, c, len, rate, start, acc) == Rest(hear, c, len, rate, next, acc')
  {
    RestStep(hear, c, len, rate, start, acc);
    next := start + StepLen(c, rate);
    acc' := Stitched(hear, c, len, rate, next, acc);
    assert acc' == Before(words, Offset(ChunkEnd(c, len, rate, next), rate)) by {
      StitchExtends(hear, words, c, len, rate, start);
    }
  }

  lemma {:induction false} RestIsComplete(hear: Recogniser, words: seq<Word>, c: Config, len: nat, rate: nat,
      start: nat, acc: seq<Word>)
    requires Clamped(c) && rate > 0 && SeamCovered(c, rate) && Truth(words, len, rate) && Faithful(hear, words, rate)
    requires acc == Before(words, Offset(ChunkEnd(c, len, rate, start), rate))
    ensures Rest(hear, c, len, rate, start, acc) == words
    decreases len - start
  {
    if start + ChunkLen(c, rate) >= len {
      RestEnds(hear, words, c, len, rate, start, acc);
    } else {
      var next, acc' := RestGoesOn(hear, words, c, len, rate, start, acc);
      RestIsComplete(hear, words, c, len, rate, next, acc');
    }
  }

  lemma RestStep(hear: Recogniser, c: Config, len: nat, rate: nat, start: nat, acc: seq<Word>)
    requires Clamped(c) && rate > 0 && start + ChunkLen(c, rate) < len
    ensures var next := start + StepLen(c, rate);
      next <= len &&
        Rest(hear, c, len, rate, start, acc) == Rest(hear, c, len, rate, next, Stitched(hear, c, len, rate, next, acc))
  {
    StepFitsChunk(c, rate);
  }

  /** With a faithful recogniser every true word comes out exactly once, in order. */
  lemma NothingLostOrDoubled(hear: Recogniser, words: seq<Word>, c: Config, len: nat, rate: nat)
    requires Clamped(c) && rate > 0 && SeamCovered(c, rate) && Truth(words, len, rate) && Faithful(hear, words, rate)
    ensures Transcript(hear, c, len, rate) == words
  {
    FirstChunk(hear, words, c, len, rate);
    if len > ChunkLen(c, rate) {
      RestIsComplete(hear, words, c, len, rate, 0, Before(words, Offset(ChunkEnd(c, len, rate, 0), rate)));
    }
  }

  lemma FirstChunk(hear: Recogniser, words: seq<Word>, c: Config, len: nat, rate: nat)
    requires Clamped(c) && rate > 0 && Truth(words, len, rate) && Faithful(hear, words, rate)
    ensures forall b: nat :: hear(0, b) == Before(words, Offset(b, rate))
    ensures hear(0, len) == words && (len == 0 ==> words == []) && ChunkLen(c, rate) >= 1
  {
    StepFitsChunk(c, rate);
    BeforeAll(words, Offset(len, rate));
    forall b: nat ensures hear(0, b) == Before(words, Offset(b, rate)) {
      BeforeIsSub(words, Offset(b, rate));
      FromAll(Before(words, Offset(b, rate)), Offset(0, rate));
    }
    if words != [] {
      assert 0.0 <= Mid(words[0]) < Offset(len, rate);
    }
  }

  lemma {:induction false} BeforeIsSub(ws: seq<Word>, t: real)
    requires forall i :: 0 <= i < |ws| ==> 0.0 <= Mid(ws[i])
    ensures forall i :: 0 <= i < |Before(ws, t)| ==> 0.0 <= Mid(Before(ws, t)[i])
  {
    if ws != [] { BeforeIsSub(ws[1..], t); }
  }

  // ----- and exactly then

  /** The recogniser that is faithful to `words`. */
  function Ideal(words: seq<Word>, rate: nat): Recogniser
    requires rate > 0
  {
    (a: nat, b: nat) => From(Before(words, Offset(b, rate)), Offset(a, rate))
  }

  /** A lone word that the accumulator has lost does not come back. */
  lemma {:induction false} LostStaysLost(w: Word, c: Config, len: nat, rate: nat, start: nat)
    requires Clamped(c) && rate > 0 && Mid(w) < Offset(start + StepLen(c, rate), rate)
    ensures Rest(Ideal([w], rate), c, len, rate, start, []) == []
    decreases len - start
  {
    if ChunkEnd(c, len, rate, start) < len {
      StepFitsChunk(c, rate);
      var next := start + StepLen(c, rate);
      NotHeard(w, rate, next, ChunkEnd(c, len, rate, next));
      OffsetMonotone(next, next + StepLen(c, rate), rate);
      assert Stitched(Ideal([w], rate), c, len, rate, next, []) == [];
      LostStaysLost(w, c, len, rate, next);
    }
  }

  lemma One(w: Word, a: real, b: real)
    ensures Before([w], a) == if Mid(w) < a then [w] else []
    ensures From([w], b) == if Mid(w) >= b then [w] else []
  {
    assert [w][1..] == [];
  }

  lemma NotHeard(w: Word, rate: nat, a: nat, b: nat)
    requires rate > 0 && (Mid(w) < Offset(a, rate) || Mid(w) >= Offset(b, rate))
    ensures Ideal([w], rate)(a, b) == []
  {
    One(w, Offset(b, rate), Offset(a, rate));
  }

  /** A word just past the end of the first chunk, before the middle of an overlap
      shorter than one sample. */
  function Unlucky(c: Config, rate: nat): Word
    requires Clamped(c) && rate > 0
  {
    var t := Offset(ChunkLen(c, rate), rate) + c.overlapSecs / 4.0;
    Word("um", t, t)
  }

  lemma UnluckyIsTrue(c: Config, len: nat, rate: nat)
    requires Clamped(c) && rate > 0 && !SeamCovered(c, rate) && len > ChunkLen(c, rate)
    ensures StepLen(c, rate) == ChunkLen(c, rate)
    ensures Offset(StepLen(c, rate), rate) <= Mid(Unlucky(c, rate)) < Seam(c, StepLen(c, rate), rate)
    ensures Mid(Unlucky(c, rate)) < Offset(StepLen(c, rate) + 1, rate)
    ensures Truth([Unlucky(c, rate)], len, rate)
  {
    StepFitsChunk(c, rate);
    SubSampleOverlap(c, rate);
    SubSample(ChunkLen(c, rate), c.overlapSecs, rate);
    OffsetMonotone(ChunkLen(c, rate) + 1, len, rate);
    OffsetMonotone(0, ChunkLen(c, rate), rate);
  }

  lemma SubSampleOverlap(c: Config, rate: nat)
    requires Clamped(c) && !SeamCovered(c, rate)
    ensures 0.0 < Span(c.overlapSecs, rate) < 1.0 && Samples(c.overlapSecs, rate) == 0
  {
    ScaleNonNegative(c.overlapSecs, rate);
  }

  lemma SubSample(n: nat, secs: real, rate: nat)
    requires rate > 0 && 0.0 < Span(secs, rate) < 1.0
    ensures secs > 0.0 && Offset(n, rate) + secs / 4.0 < Offset(n + 1, rate)
  {
    if secs <= 0.0 {
      SpanMonotone(secs, 0.0, rate);
      assert false;
    }
    DivideOut(secs, rate);
    Quotients(Span(secs, rate) / 2.0, 1.0, rate);
    AddOffset(n, 1, rate);
  }

  lemma UnluckyIsLost(c: Config, len: nat, rate: nat)
    requires Clamped(c) && rate > 0 && !SeamCovered(c, rate) && len > ChunkLen(c, rate)
    ensures Transcript(Ideal([Unlucky(c, rate)], rate), c, len, rate) == []
  {
    var w, step := Unlucky(c, rate), StepLen(c, rate);
    var hear, end := Ideal([w], rate), ChunkEnd(c, len, rate, step);
    UnluckyIsTrue(c, len, rate);
    StepFitsChunk(c, rate);
    NotHeard(w, rate, 0, step);
    One(w, Offset(end, rate), Offset(step, rate));
    One(w, 0.0, Seam(c, step, rate));
    assert Stitched(hear, c, len, rate, step, []) == [];
    OffsetMonotone(step + 1, step + step, rate);
    LostStaysLost(w, c, len, rate, step);
    assert Rest(hear, c, len, rate, 0, []) == Rest(hear, c, len, rate, step, []);
  }

  /** Whatever was said, every faithful recogniser's words come out unchanged. */
  ghost predicate Complete(c: Config, len: nat, rate: nat)
    requires Clamped(c) && rate > 0
  {
    forall hear, words :: Truth(words, len, rate) && Faithful(hear, words, rate) ==>
      Transcript(hear, c, len, rate) == words
  }

  /** Complete transcripts exactly when the audio fits one chunk, or the overlap is
      nothing or at least one sample. */
  lemma CompleteExactlyWhen(c: Config, len: nat, rate: nat)
    requires Clamped(c) && rate > 0
    ensures Complete(c, len, rate) <==> len <= ChunkLen(c, rate) || SeamCovered(c, rate)
  {
    if len <= ChunkLen(c, rate) || SeamCovered(c, rate) {
      forall hear, words | Truth(words, len, rate) && Faithful(hear, words, rate)
        ensures Transcript(hear, c, len, rate) == words
      {
        if SeamCovered(c, rate) {
          NothingLostOrDoubled(hear, words, c, len, rate);
        } else {
          FirstChunk(hear, words, c, len, rate);
        }
      }
    } else {
      UnluckyIsTrue(c, len, rate);
      UnluckyIsLost(c, len, rate);
      assert Faithful(Ideal([Unlucky(c, rate)], rate), [Unlucky(c, rate)], rate);
      assert Transcript(Ideal([Unlucky(c, rate)], rate), c, len, rate) != [Unlucky(c, rate)];
    }
  }
}

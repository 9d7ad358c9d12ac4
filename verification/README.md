# polyvoice: verified core

A Dafny model of the algorithmic core of polyvoice, a speaker-diarization and
transcription engine: who spoke when, which words belong to whom, and the numeric
kernels below it. Each module states what its part is for as an independent
specification and proves that the code's own steps (loops, in-place updates,
interleavings) meet it for all inputs or all runs. Every method keeps the branches,
edge cases and error results of the code it follows.

| files | part |
|---|---|
| `Assignment`, `Hungarian`, `Cooccurrence` | Kuhn-Munkres assignment with potentials, and the speaker map built on it |
| `Frames`, `Der`, `DerLaws`, `DerTimes` | the diarization error rate of one file, its laws, and what it is in seconds |
| `WorkerPool` | the parked worker pool as a transition system |
| `Ahc`, `AhcLaws`, `AhcMeans`, `ClusterIds`, `Pruning`, `PruneTwice`, `Measure` | agglomerative clustering, canonical ids, pruning by size or by speech time, and pruning twice |
| `Attribution` | the word-to-turn sweep, the scan it replaces, timestamp interpolation |
| `PackCache`, `ForeignPacks`, `ThreadPacks` | thread-local weight packs invalidated by a generation counter: all threads as a transition system, packs of memory that no model holds, and one thread's vectors updated in place |
| `Chunking` | long audio in overlapping chunks |
| `Protobuf`, `OnnxTensor`, `OnnxInit`, `OnnxWire` | the protobuf reader of ONNX initializers, and its bytes with every number written out |
| `Flat`, `Gemm`, `Conv`, `Seq1d`, `VirtualIm2col` | convolution lowered to blocked matrix products |
| `Wrappers`, `Sorting` | small shared types and methods |

Numbers: floats are exact reals, infinity is a constructor of its own, counts and
indices are unbounded unless a bound matters (64-bit varints, 32-bit and 8-bit casts and
the wrapping element count of a tensor are written out). Clustering scores, the
recogniser and the lossy text decoding are uninterpreted functions passed as
parameters. Scratch buffers and `new` arrays start with arbitrary contents, which is how
reused thread-local buffers are modelled.

## What holds, and what does not

* `Hungarian.Solve` is optimal for every square matrix; the certificate is the pair of
  potentials the loop itself keeps.
* A DER score does not depend on which optimal map the solver picks
  (`DerLaws.ScoreIsUnique`), so the laws about renaming, copies and widening are about
  the score and not about one run.
* Loops and specifications share small functions: rounding, overlaps, counts, type codes. What
  those mean is stated apart from both: frames in seconds (`DerTimes`), merges in members and
  sums (`AhcMeans`), tags in overlaps and speakers (`Attribution.TagMeans`), tensors in bytes
  (`OnnxWire`), output lengths in windows that fit (`Flat.WindowCount`).
* The pool's early return (`polyvoice-kernels/src/intra.rs:90-93`) calls only `f(0)` when
  there are no workers. `WorkerPool.DirectCallsCover` gives the exact condition under
  which every index is called, and `WorkerPool.WorkerlessPoolDropsWork` a concrete loss.
* The comment on `stitch_at` promises no duplicates and no drops. That holds exactly when
  the audio fits one chunk or the overlap is zero or at least one sample long:
  `Chunking.CompleteExactlyWhen`. A shorter positive overlap loses a word.
* The sweep equals the scan on every word that some turn overlaps, and on every word to which
  all turns are straight (`Attribution.SweepMatchesScan`): no turn both ends before the word
  and starts after it, unless as far off on either side. Turns that run forwards always are,
  and many that run backwards too. The condition cannot be relaxed for any word and turn
  (`Attribution.HarmlessExactlyWhen`), and `Attribution.InvertedTurnMisleads` gives an input
  on which the two answers differ.
* The cache of packs is current for a thread that multiplies only by live models' weights
  (`PackCache.GemmUsesCurrentWeights`). The public GEMM caches whatever slice it is given: a
  pack of memory that no live model holds outlives that memory's contents, and a model loaded
  there is then multiplied by them (`ForeignPacks.ForeignPackIsServed`, the run of
  `polyvoice-kernels/examples/bench_resnet.rs`). `ForeignPacks.CurrentExactlyWhen` gives the
  exact condition, over every reachable state, for a thread to be safe from here on, and
  `PackCache.CurrentSinceTheLastDrop` the simplest way to meet it. On any memory a single call
  is right exactly when what the thread has packed of that operand still is what memory holds,
  or a model was dropped since it last looked (`ForeignPacks.RightExactlyWhen`), and whole runs
  are right if buffers stay as they were packed (`ForeignPacks.GemmUsesCurrentMemory`).
* Speech time is the length of a union of windows. The sweep that adds it up returns exactly
  that length when no window is loose (ends before it starts and starts outside every window
  before it); otherwise it returns less, by a stated amount: `Measure.UnionLength`.
* Pruning by size twice is pruning once (`Pruning.PruneTwiceBySize`). Pruning by speech time
  twice is not: a backward window that joins a cluster can take its counted time below the bar,
  so a second prune moves members (`PruneTwice.SecondPruneMoves`). It is pruning once for all
  similarities exactly when at most one cluster passes, or each that does would still pass with
  all backward windows of the others (`PruneTwice.StableExactlyWhen`), and so for all windows
  that run forwards (`PruneTwice.PruneTwiceByDuration`).
* `run(n, f)` calls each index below n exactly once, on whichever path and under every
  interleaving, exactly when n is 1, or n is larger and there is a worker:
  `WorkerPool.RunCovers`.
* `parse_initializers` keeps the last graph of a ModelProto. The Protocol Buffers
  encoding guide would merge repeated embedded messages; the model follows the code.
* Without a generation step between two loads at one address a cached pack is stale
  (`PackCache.WithoutADropThePackIsStale`): the counter is what makes it safe.

## Model

| member | source | states |
|---|---|---|
| Assignment.TightIsOptimal | src/hungarian.rs:65-73 | Weak duality: potentials that never exceed a cell's cost and meet it on the assignment make that assignment no dearer than any other |
| Assignment.SumAtPermutation | src/hungarian.rs:90-96 | Visiting every column once, in any order, gives the plain sum: why a permutation collects every column potential |
| Assignment.Extend | src/hungarian.rs:126-134 | Every partial one-to-one map of rows to columns is part of a permutation of the padded square |
| Assignment.CheapestGathersMost | src/hungarian.rs:126-138 | A cheapest permutation of the complemented weights gathers at least the weight of any partial one-to-one map |
| Hungarian.Scan | src/hungarian.rs:50-64 | The relaxation loop leaves in `minv` the smaller of the old value and the reduced cost from the entered column, with its witness in `way`, and names an unused column of least `minv` |
| Hungarian.UpdatePotentials | src/hungarian.rs:65-73 | The in-place potential update raises each tree row exactly once, because `p` is one-to-one on used columns |
| Hungarian.ShiftKeepsSlack | src/hungarian.rs:65-73 | After the shift no processed cell has negative slack, also when the first delta of a row is negative |
| Hungarian.ShiftKeeps | src/hungarian.rs:65-73 | The shift keeps the tree tight and the frontier the least slack over it |
| Hungarian.ScanFinds | src/hungarian.rs:50-64 | While a column is free the scan names a real, unused column at finite distance |
| Hungarian.Round | src/hungarian.rs:47-78 | One round enters a fresh column and leaves the search invariant before the next one |
| Hungarian.GrowTree | src/hungarian.rs:42-78 | The search of row i reaches a free column in at least one and at most i rounds |
| Hungarian.WalkBack | src/hungarian.rs:79-87 | The walk along `way` ends at column 0 and leaves a tight one-to-one matching with exactly row i added |
| Hungarian.AddRow | src/hungarian.rs:42-88 | Adding a row keeps rows 1..i matched, tight and dual feasible |
| Hungarian.DoneIsOptimal | src/hungarian.rs:34-96 | The final potentials certify the assignment read out of `p` as optimal |
| Hungarian.Solve | src/hungarian.rs:25-97 | `Some` exactly for square input, and then a permutation whose cost is least among all permutations |
| Cooccurrence.WeightByRows | src/hungarian.rs:118-134 | Summing a map's counts over the sorted ids sees every pair that counts |
| Cooccurrence.Place | src/hungarian.rs:126-134 | Every one-to-one speaker map is a partial map of the padded square with the same weight |
| Cooccurrence.AssignmentIsBest | src/hungarian.rs:113-152 | An optimal padded assignment, with zero pairs dropped, outweighs every one-to-one map |
| Cooccurrence.CostMatrix | src/hungarian.rs:126-134 | Cell (i, j) is minus the count of the i-th and j-th sorted ids, padding is zero |
| Cooccurrence.KeepReal | src/hungarian.rs:140-149 | The kept pairs form a one-to-one map over pairs that really co-occur, containing every assigned pair that does |
| Cooccurrence.MapMaxCooccurrence | src/hungarian.rs:113-152 | The result is one-to-one, over pairs with a positive count, and no one-to-one map has a larger total |
| Frames.Decompose | benchmarks/der.py:192-204 | Frame by frame reference speech is correct plus missed plus confused, and no term is negative |
| Frames.Exchange | benchmarks/der.py:181-189 | A map's weight in the co-occurrence table equals its number of correctly attributed frames: the two sums exchange |
| Frames.BestConfusesLeast | benchmarks/der.py:181-204 | A map of largest co-occurrence confuses the fewest frames among all one-to-one maps |
| Frames.NarrowerIsLess | benchmarks/der.py:167-204 | Under a fixed map, scoring fewer frames lowers every term |
| Frames.RenamedLeast | benchmarks/der.py:162-204 | The least confusion is the same before and after renaming both sides |
| Der.MaxWeightAssignment | benchmarks/der.py:76-124 | The fallback solver returns pairs that form a one-to-one map of largest total weight over the real cells |
| Der.PairsAreBest | benchmarks/der.py:76-124 | Cells priced at big minus weight and padded to a square: the cheapest assignment restricted to real cells is the heaviest map |
| Der.FrameSets | benchmarks/der.py:145-154 | active[f] holds exactly the numbers of the speakers with a turn over frame f |
| Der.Mask | benchmarks/der.py:167-179 | A frame is scored exactly when it lies outside every collar and, on request, has at most one reference speaker |
| Der.CountShared | benchmarks/der.py:181-188 | Each cell of the table counts the scored frames in which both speakers are active |
| Der.Accumulate | benchmarks/der.py:191-204 | The running totals are the sums of the per-frame terms over the scored frames |
| Der.ScoreFile | benchmarks/der.py:157-205 | The score is that of a one-to-one speaker map with the least confusion among all such maps |
| DerLaws.ScoreIsUnique | benchmarks/der.py:157-205 | Two scores of the same file agree whatever optimal maps they used |
| DerLaws.ScoreDecomposes | benchmarks/der.py:191-204 | Under a map of least confusion, scored_ref is the time of the correctly attributed frames plus miss plus confusion, with every term non-negative |
| DerLaws.WideningNeverRaises | benchmarks/der.py:167-204 | A wider collar, or skipping overlap, never raises scored_ref, miss, false alarm or confusion, although the map is chosen anew |
| DerLaws.ScoreIgnoresNames | benchmarks/der.py:157-205 | Renaming the speakers of either side leaves every term unchanged |
| DerLaws.CopyScoresZero | benchmarks/der.py:157-205 | A reference against a relabelled copy of itself has no miss, false alarm or confusion |
| DerTimes.NearestFrame | benchmarks/der.py:149-150 | A time belongs to the nearest ten-millisecond frame, half-way to the even one |
| DerTimes.FramesReach | benchmarks/der.py:159-160 | The frames looked at end with the frame of the latest end of either side, and number at least one |
| DerTimes.NoSpeechBeyond | benchmarks/der.py:145-164 | Every frame with an active speaker of either side is looked at |
| DerTimes.LoneReference | benchmarks/der.py:157-205 | A single reference turn against nothing: its length is scored and missed, to within a frame, and to within half a frame when it starts at zero |
| DerTimes.LoneSystem | benchmarks/der.py:157-205 | A single system turn against nothing: its length is false alarm, to within a frame, half a frame when it starts at zero |
| DerTimes.CollarTakesBothEnds | benchmarks/der.py:168-175 | A collar takes its own length from each end of a turn, to within a frame and a half |
| DerTimes.OverlapCountsTwice | benchmarks/der.py:176-179 | Two reference speakers at once are scored twice, or not at all when overlap is skipped |
| DerTimes.ScoreBalances | benchmarks/der.py:140-142 | System speech is correct, confused or false alarm; the rate times the scored speech is a hundred times the errors |
| WorkerPool.StepInv | polyvoice-kernels/src/intra.rs:54-136 | Every step of the dispatcher, of any worker and every spurious wake-up keeps the joint invariant on mutex, slot, counters, claims and joins |
| WorkerPool.ReachableInv | polyvoice-kernels/src/intra.rs:25-136 | The invariant holds in every state any interleaving can reach |
| WorkerPool.CallsUseTheCurrentBatch | polyvoice-kernels/src/intra.rs:70-77 | Any call in progress uses the function, data and range of the batch now published, and its index is in range and claimed by that thread alone |
| WorkerPool.ReturnIsComplete | polyvoice-kernels/src/intra.rs:114-136 | When `dispatch` returns every index was called exactly once and every call has ended, every worker joined exactly once, and none is still in the batch |
| WorkerPool.OnlyReturnsEndABatch | polyvoice-kernels/src/intra.rs:114-136 | No step but the return takes the dispatcher back to idle |
| WorkerPool.SomeoneCanMove | polyvoice-kernels/src/intra.rs:54-136 | During a batch some thread always has a real step: no deadlock and no lost wake-up |
| WorkerPool.RunIsShort | polyvoice-kernels/src/intra.rs:54-136 | Along any run the ranking measure pays for every real step and rises by at most two per spurious wake-up |
| WorkerPool.BatchIsShort | polyvoice-kernels/src/intra.rs:114-136 | A batch of n jobs on W workers takes at most 13 + 23 W + 2 n real steps plus two per spurious wake-up |
| WorkerPool.StuckHasReturned | polyvoice-kernels/src/intra.rs:54-136 | A run of a batch that no thread can extend has returned, within that many steps, and a returned batch is and stays complete |
| WorkerPool.CanReturn | polyvoice-kernels/src/intra.rs:54-136 | From any point of a batch the threads' own steps, without a spurious wake-up, can bring it to its complete return |
| WorkerPool.DirectCallsCover | polyvoice-kernels/src/intra.rs:87-103 | When `run` does not dispatch, every index is called once exactly when n is 1, or n is larger and there is a worker; an empty range still calls index 0 |
| WorkerPool.RunCovers | polyvoice-kernels/src/intra.rs:87-136 | `run` as a whole, on its direct and its dispatched paths and under every interleaving, calls each index below n once and no other exactly when n is 1, or n is larger and there is a worker |
| WorkerPool.WorkerlessPoolDropsWork | polyvoice-kernels/src/intra.rs:87-93 | With no workers and four jobs only job 0 is called |
| Attribution.AttributeOneReference | src/attribution/mod.rs:187-222 | The full scan tags a word with the turn of greatest overlap, else of least gap, ties to the smaller speaker and then the earlier turn |
| Attribution.OverlapIsShared | src/attribution/mod.rs:18-21 | The overlap is the length of the longest stretch of time that lies in both ranges |
| Attribution.GapIsDistance | src/attribution/mod.rs:23-32 | The gap of two forward ranges is the distance of their nearest points |
| Attribution.TagMeans | src/attribution/mod.rs:177-222 | Whatever is tagged has the smallest speaker of all turns with the greatest overlap, or with the least gap when none overlaps, and the word's confidence in proportion to the part covered |
| Attribution.TagIsUnique | src/attribution/mod.rs:177-222 | That rule determines speaker and confidence |
| Attribution.AdvanceLeft | src/attribution/mod.rs:397-417 | The pointer passes every turn it can: all turns behind it end by the word's start, the turn at it does not, and `best_left` is the one behind it that ends last, by the tie-break |
| Attribution.WindowIsEnough | src/attribution/mod.rs:229-270 | The turns in the window decide overlap: none behind the pointer or past the break can overlap the word, whichever way the turns run |
| Attribution.NearestOfAll | src/attribution/mod.rs:272-297 | With turns straight to the word, the nearest of `best_left` and the window is the nearest of all turns |
| Attribution.AttributeOneSweep | src/attribution/mod.rs:229-298 | For any turns the answer is the first choice among `best_left` and the window; with an overlapping turn, or turns straight to the word, it obeys the full scan's rule |
| Attribution.AttributeWordsSweep | src/attribution/mod.rs:347-424 | One result per word, in input order, for any words and turns; each word that a turn overlaps, or to which all turns are straight, gets the tag that `TagMeans` describes |
| Attribution.SweepMatchesScan | src/attribution/mod.rs:187-424 | Sweep and scan give the same speaker and confidence to every word that some turn overlaps, whatever the turns, and to every word to which all turns are straight |
| Attribution.SweptIsTagged | src/attribution/mod.rs:229-298 | Any answer the sweep can give is the full scan's when a turn overlaps the word or all are straight to it |
| Attribution.ForwardIsClear | src/attribution/mod.rs:187-298 | Turns and words that run forwards always meet that condition |
| Attribution.HarmlessExactlyWhen | src/attribution/mod.rs:272-297 | For every word and turn: the sweep agrees with the scan on all lists of straight turns that may also hold this one exactly when this one is straight |
| Attribution.CrookedMisleads | src/attribution/mod.rs:272-297 | Any turn that is not straight makes the sweep answer the farther of two turns, and nothing else |
| Attribution.InvertedTurnMisleads | src/attribution/mod.rs:397-417 | Sweep and scan carried out on one word and two turns, one ending before it starts: they answer different speakers |
| Attribution.InterpolateWordTimestamps | src/attribution/mod.rs:125-175 | Usable words are untouched, each other gets its span from the nearest usable neighbours, always of positive length, and only those are flagged |
| Attribution.PlacedSpans | src/attribution/mod.rs:139-172 | An unusable word takes all the room between its usable neighbours, else a millisecond after the left one or before the right one, never before zero |
| Attribution.AttributeWords | src/attribution/mod.rs:325-344 | Interpolation followed by the sweep, one result per word; with forward turns every word, whatever timestamps came in, gets the tag that `TagMeans` describes |
| Ahc.NaiveRunIsUnique | src/ahc/mod.rs:585-630 | A loop that rescores every active pair each round has exactly one sequence of merges |
| Ahc.BestPair | src/ahc/mod.rs:586-616 | On a fresh matrix the search returns the first pair of highest score among mergeable active pairs, or none |
| Ahc.RefreshMatrix | src/ahc/mod.rs:654-675 | Clearing one row and column and rescoring another leaves the matrix equal to rescoring every active pair |
| Ahc.MergeInto | src/ahc/mod.rs:632-652 | The in-place merge gives the weighted normalised centroid, the heavier side's dominant member, summed sizes and durations, and relabels |
| Ahc.MergeLoop | src/ahc/mod.rs:560-682 | The loop with the cached matrix makes exactly the merges of the rescoring loop and stops where it stops |
| AhcLaws.RunKeepsSound | src/ahc/mod.rs:562-682 | Throughout, a root is its cluster's smallest member, sizes count members, durations sum them, and the dominant member belongs to the cluster |
| AhcLaws.MergeKeepsEstablished | src/ahc/mod.rs:600-608 | A merge never joins two established clusters and never loses one |
| AhcLaws.EstablishedNeverFalls | src/ahc/mod.rs:585-682 | Over any stretch of a run the number of established clusters does not fall |
| AhcLaws.StopsRight | src/ahc/mod.rs:618-630 | At the stop every mergeable pair scores below the threshold, and the count is within the ceiling unless all remaining pairs are established |
| AhcLaws.AhcImplWithMatrix | src/ahc/mod.rs:550-711 | The returned labels are the canonical numbering of the partition of the rescoring run, whose state is sound |
| AhcLaws.Durations | src/ahc/mod.rs:571-577 | With a stop in seconds and one range per embedding each duration is its range's length, none if it runs backwards; otherwise all are zero |
| AhcMeans.MergeJoins | src/ahc/mod.rs:632-652 | A merge gives the normalised mean weighted by members, the dominant member of the side with more members, the left one when equal, and touches no other cluster |
| AhcMeans.EveryMerge | src/ahc/mod.rs:585-652 | Every merge of a run joins the first pair in row order of the highest score among pairs not both settled, at the threshold or with more clusters than the ceiling, counted as sets |
| AhcMeans.NothingDue | src/ahc/mod.rs:618-630 | When the run stops no such pair reaches the threshold and there are not too many clusters |
| AhcMeans.RunKeepsCentred | src/ahc/mod.rs:632-640 | Without normalising, each centroid times its members is the sum of their embeddings, through every run |
| ClusterIds.CompactClusterIds | src/ahc/mod.rs:239-257 | The labels returned are the canonical ids of the partition |
| ClusterIds.IdsAreOrdered | src/ahc/mod.rs:684-708 | A larger cluster, or of equal ones the one with the earlier first member, has the smaller id |
| ClusterIds.LargerComesFirst | src/ahc/mod.rs:684-708 | The cluster with more members, counted as a set, has the smaller id; of two as large, the one first seen |
| ClusterIds.IdsKeepThePartition | src/ahc/mod.rs:684-708 | Two members share an id exactly when they shared a label |
| ClusterIds.IdsAreContiguous | src/ahc/mod.rs:684-708 | The ids in use are exactly 0 up to the number of clusters |
| ClusterIds.IdsDependOnThePartition | src/ahc/mod.rs:684-708 | Two labelings of the same partition get identical ids |
| Measure.MeasureMonotone | src/ahc/mod.rs:306-335 | A union of windows inside another has no greater length |
| Measure.MeasureUnique | src/ahc/mod.rs:306-335 | The length depends on the covered set alone, so not on the order or the splitting of windows |
| Measure.UnionLength | src/ahc/mod.rs:315-333 | Sorting and sweeping any windows returns the measure of their union less what loose windows subtract, and so the measure itself exactly when none is loose |
| Measure.ShortfallSign | src/ahc/mod.rs:315-333 | What is subtracted is never negative, and is zero exactly when no window is loose |
| Measure.BackwardSpanFallsShort | src/ahc/mod.rs:315-333 | A lone window that runs backwards covers nothing and yet is counted as minus its extent |
| Measure.ForwardIsAnchored | src/ahc/mod.rs:315-333 | Windows that run forwards are never loose |
| Pruning.SurvivorsOrLargest | src/ahc/mod.rs:337-362 | The survivors are the labels that pass, or else the one label of largest metric, ties to the smaller |
| Pruning.ClusterDurations | src/ahc/mod.rs:307-335 | Each label in use gets the measure of the union of its members' windows, whatever their order, less what its loose windows subtract |
| Pruning.FinishPrune | src/ahc/mod.rs:364-410 | Members of survivors keep their cluster, under the survivors' compact numbering, and every other member joins the first survivor of greatest similarity to it |
| Pruning.LeftAloneExactlyWhen | src/ahc/mod.rs:337-410 | A prune on any metric leaves the labels alone exactly when every cluster passes or there is only one |
| Pruning.PruneSmallClusters | src/ahc/mod.rs:268-284 | Afterwards every cluster has the minimum size or one cluster remains, survivors keep all their members and the rest join the most similar one; the labels are left alone exactly when they meet that bar |
| Pruning.PruneTwiceBySize | src/ahc/mod.rs:268-284 | Pruning by size a second time changes nothing, whatever the similarities |
| Pruning.PruneSmallClustersByDuration | src/ahc/mod.rs:286-304 | For any windows, afterwards every cluster has the minimum speech time or one cluster remains; the labels are left alone exactly when the bar is zero, every cluster is counted long enough, or there is only one |
| PruneTwice.PruneTwiceByDuration | src/ahc/mod.rs:286-304 | A second prune by speech time changes nothing exactly when the first result is counted long enough or is one cluster, and always for windows that run forwards |
| PruneTwice.RicherIsLonger | src/ahc/mod.rs:306-335 | More forward windows and fewer backward ones never lower the counted time, wherever they fall in the order |
| PruneTwice.StableExactlyWhen | src/ahc/mod.rs:286-410 | Pruning twice is pruning once for all similarities exactly when at most one cluster passes or each passing one would still pass with every dissolved cluster's backward windows |
| PruneTwice.SecondPruneMoves | src/ahc/mod.rs:286-410 | Three windows, one of them backward, pruned twice: the first time gives 0, 1, 0 and the second something else |
| PackCache.StepInv | polyvoice-kernels/src/rten_matmul.rs:23-44 | Every load, write, drop and GEMM step of any thread, on models' weights or on other memory, keeps the cache invariant: a model's pack older than its memory is behind a newer generation |
| PackCache.GemmUsesCurrentWeights | polyvoice-kernels/src/rten_matmul.rs:116-366 | Over every interleaving, a thread that itself multiplies only by live models' weights multiplies by their current contents, whatever the other threads multiply by |
| PackCache.CurrentSinceTheLastDrop | polyvoice-kernels/src/rten_matmul.rs:33-44 | It is enough that the thread has made no GEMM on other memory since some model's drop |
| ForeignPacks.CurrentExactlyWhen | polyvoice-kernels/src/rten_matmul.rs:116-167 | In every reachable state, an idle thread's GEMMs on models stay current, whatever follows, exactly when a model was dropped since it last looked, or each pack it has of memory outside the models now meets a live model and equals that model's words if it is an operand of it |
| ForeignPacks.ForeignPackIsServed | polyvoice-kernels/examples/bench_resnet.rs:9-38 | The public GEMM on a temporary, the temporary freed, a model loaded where it lay: the model's GEMM then uses the temporary's contents |
| ForeignPacks.RefilledBufferIsStale | polyvoice-kernels/src/conv.rs:211-221 | A buffer outside every model that is refilled between two GEMMs is multiplied in its old contents |
| ForeignPacks.RightExactlyWhen | polyvoice-kernels/src/rten_matmul.rs:116-167 | A call on any memory, in any state that keeps the invariant, multiplies by what memory holds exactly when a model was dropped since the thread last looked or its pack of that operand is still what memory holds |
| ForeignPacks.GemmUsesCurrentMemory | polyvoice-kernels/src/rten_matmul.rs:116-366 | Over every interleaving in which no step changes memory the thread holds a foreign pack of, unless a model was dropped since it looked, each of its GEMMs multiplies by what memory holds |
| PackCache.DropMemory | polyvoice-kernels/src/powerset.rs:63-67 | Both halves of a drop keep the memory invariant: whoever owns an address another model had was loaded no earlier than the generation that model's drop raised |
| ThreadPacks.Packs.Refresh | polyvoice-kernels/src/rten_matmul.rs:33-44 | Clearing the three vectors in place when the generation has moved is the transition system's refresh step |
| ThreadPacks.Packs.Operand | polyvoice-kernels/src/rten_matmul.rs:129-147 | Search, push and search again on one vector give the operand and the cache of the transition system's step |
| ThreadPacks.OfFacts | polyvoice-kernels/src/rten_matmul.rs:129-147 | Looking in the vector of one kind finds what looking in the whole cache finds, and its length is the count of that kind |
| PackCache.CapacityKept | polyvoice-kernels/src/rten_matmul.rs:111-140 | In every reachable state no thread's cache holds more than its capacity of any kind |
| PackCache.WithoutADropThePackIsStale | polyvoice-kernels/src/rten_matmul.rs:23-44 | A hit returns the old pack whatever memory holds now: the generation is needed |
| Chunking.StepFitsChunk | polyvoice-asr/src/lib.rs:121-131 | The clamped configuration gives a step of at least one sample and at most a chunk, so the next chunk starts inside the audio and the loop ends |
| Chunking.WithChunking | polyvoice-asr/src/lib.rs:77-81 | Any requested lengths give a chunk of at least a second and an overlap between zero and half of it; what needs no clamping is left as asked |
| Chunking.ChunksInSeconds | polyvoice-asr/src/lib.rs:121-145 | Chunks and shared parts are the whole samples of their seconds, and the seam is half an overlap into the chunk |
| Chunking.StitchAt | polyvoice-asr/src/lib.rs:157-168 | Exactly the left words whose middle is before the seam and the right ones whose middle is not are kept, in order |
| Chunking.CutAndJoin | polyvoice-asr/src/lib.rs:161-168 | Cutting a time-ordered list at the seam and joining it again gives the list |
| Chunking.SeamInside | polyvoice-asr/src/lib.rs:143-145 | With an overlap of zero or at least one sample the seam lies inside both chunks |
| Chunking.StitchExtends | polyvoice-asr/src/lib.rs:133-152 | One stitch takes all true words before this chunk's end to all true words before the next chunk's end |
| Chunking.RestGoesOn | polyvoice-asr/src/lib.rs:133-152 | While audio is left, a transcript complete up to one chunk's end is carried on complete to the next chunk's |
| Chunking.Transcribe | polyvoice-asr/src/lib.rs:117-154 | The loop ends and returns the specified transcript |
| Chunking.NothingLostOrDoubled | polyvoice-asr/src/lib.rs:117-168 | A faithful recogniser's words come out exactly once each and in order |
| Chunking.UnluckyIsLost | polyvoice-asr/src/lib.rs:130-145 | With an overlap under one sample and more than one chunk, a word between chunk end and seam is in no transcript |
| Chunking.CompleteExactlyWhen | polyvoice-asr/src/lib.rs:117-168 | Transcripts are complete for all words exactly when the audio fits one chunk or the overlap is zero or at least one sample |
| Protobuf.ReadVarint | polyvoice-kernels/src/onnx_init.rs:585-607 | Or-ing in shifted groups of at most ten bytes gives the value of the seven-bit groups modulo 2^64; truncation and overflow are errors exactly when the groups do not end in time |
| Protobuf.GroupRead | polyvoice-kernels/src/onnx_init.rs:596 | The bitwise or of the bits read so far and the next group, shifted and cut to 64 bits, is the value one byte further, because they share no bit |
| Protobuf.VarintRoundTrip | polyvoice-kernels/src/onnx_init.rs:585-607 | Every 64-bit number is read back from its encoding wherever it stands |
| Protobuf.ReadLenBlob | polyvoice-kernels/src/onnx_init.rs:609-622 | A blob read lies inside the bytes and the position advances past it |
| Protobuf.SkipValue | polyvoice-kernels/src/onnx_init.rs:624-653 | Skipping a value moves exactly as far as reading it and fails exactly when reading fails |
| Protobuf.NextField | polyvoice-kernels/src/onnx_init.rs:581-653 | On arbitrary bytes a field read advances strictly and stays in bounds |
| Protobuf.FieldRoundTrip | polyvoice-kernels/src/onnx_init.rs:581-653 | Every writable field, known or not, is read back |
| Protobuf.VarintsRoundTrip | polyvoice-kernels/src/onnx_init.rs:308-317 | Packed varints are read back as the list written |
| OnnxTensor.ReadField | polyvoice-kernels/src/onnx_init.rs:166-237 | Each arm of the loop applies exactly its field and any other field is skipped without effect |
| OnnxTensor.WrappingProduct | polyvoice-kernels/src/onnx_init.rs:239-243 | The running product is the shape's product modulo 2^64 |
| OnnxTensor.ParseTensorProto | polyvoice-kernels/src/onnx_init.rs:158-306 | The loop folds the fields and finishes as specified, errors included |
| OnnxTensor.Finish | polyvoice-kernels/src/onnx_init.rs:239-305 | An accepted tensor has as many elements as its shape's product modulo 2^64 |
| OnnxTensor.EntriesRead | polyvoice-kernels/src/onnx_init.rs:158-237 | Whatever the order, packing and unknown fields, reading gives dimensions, type, name, raw bytes and values each as if alone |
| OnnxTensor.TensorRoundTrip | polyvoice-kernels/src/onnx_init.rs:158-306 | Fields that spell a tensor, as raw bytes or typed values, are read back as that tensor |
| OnnxTensor.OrderDoesNotMatter | polyvoice-kernels/src/onnx_init.rs:166-237 | Two writings that agree on each kind of field are read alike, however the kinds interleave or pack |
| OnnxTensor.UnknownFieldsDoNotMatter | polyvoice-kernels/src/onnx_init.rs:236 | Dropping every unknown field from the bytes changes nothing |
| OnnxInit.ParseInitializers | polyvoice-kernels/src/onnx_init.rs:113-156 | The two loops return the tensors of the last graph by name, or the specified error |
| OnnxInit.ModelRoundTrip | polyvoice-kernels/src/onnx_init.rs:113-156 | A written model is read as the tensors its last graph spells, later names replacing earlier; no graph and no readable tensor are the two errors |
| OnnxInit.ReadInvertsWrite | polyvoice-kernels/src/onnx_init.rs:113-306 | With distinct names the result is exactly the written list of tensors |
| OnnxWire.TwoBytes | polyvoice-kernels/src/onnx_init.rs:585-607 | In a varint of two bytes the low seven bits come first |
| OnnxWire.RawFloats | polyvoice-kernels/src/onnx_init.rs:245-256 | Bytes with tags 08, 10, 42, 4A and type code 1 are read as floats, each from four bytes, lowest first |
| OnnxWire.RawBytes | polyvoice-kernels/src/onnx_init.rs:260-273 | With type code 3 they are read as signed bytes |
| OnnxWire.RawInts | polyvoice-kernels/src/onnx_init.rs:274-288 | With type code 6 they are read as signed words, lowest byte first |
| OnnxWire.OtherCodes | polyvoice-kernels/src/onnx_init.rs:289-290 | With any other type code the tensor is not read |
| OnnxWire.OneFloat | polyvoice-kernels/src/onnx_init.rs:205-215 | Tag 25 and four bytes are one float, lowest byte first |
| OnnxWire.PackedFloat | polyvoice-kernels/src/onnx_init.rs:192-204 | Tag 22 with a length of four bytes is the same float |
| OnnxWire.OneInt | polyvoice-kernels/src/onnx_init.rs:221-225 | Tag 28 and a byte are one integer, a word under type code 6 and a byte under 3 |
| OnnxWire.PackedInt | polyvoice-kernels/src/onnx_init.rs:216-220 | Tag 2A with a length of one is the same integer |
| OnnxWire.PackedDimension | polyvoice-kernels/src/onnx_init.rs:177-186 | Tag 0A with a length of one is a dimension, as under tag 08 |
| OnnxWire.OneInitializer | polyvoice-kernels/src/onnx_init.rs:113-156 | Tag 3A holds the graph and tag 2A in it a tensor: a model of one tensor is read as that tensor under its name |
| OnnxWire.Int8Model | polyvoice-kernels/src/onnx_init.rs:113-306 | Seventeen bytes of a model with one INT8 weight give its four signed values |
| Flat.SumFlat | polyvoice-kernels/src/conv.rs:436 | A sum over a flattened index is the sum of sums |
| Flat.WindowCount | polyvoice-kernels/src/seq1d.rs:134 | The usual length formula counts the windows of k samples, a stride apart, that fit |
| Flat.PatchRow | polyvoice-kernels/src/gemm.rs:274 | Writing part of a row changes those cells of the matrix and no others |
| Gemm.Kernel | polyvoice-kernels/src/gemm.rs:245-276 | The register tile replaces exactly its block of C by the full dot products |
| Gemm.Tail | polyvoice-kernels/src/gemm.rs:350-374 | The row-wise tail replaces exactly its block of C by the full dot products |
| Gemm.Blocked | polyvoice-kernels/src/gemm.rs:202-243 | Eight-row strips, four-row strips and the rest cover every cell of C once |
| Gemm.GemmBiasRow | polyvoice-kernels/src/gemm.rs:31-66 | C becomes A B plus the row's bias, whatever C held |
| Gemm.GemmAdd | polyvoice-kernels/src/gemm.rs:377-435 | C grows by A B, each cell exactly once |
| Conv.TapsAreDirect | polyvoice-kernels/src/conv.rs:436 | The flattened sum over taps is the sum over channels, kernel rows and kernel columns |
| Conv.FillLine | polyvoice-kernels/src/conv.rs:465-481 | One output row of one tap, with what falls into the padding left at zero |
| Conv.Im2colInto | polyvoice-kernels/src/conv.rs:437-484 | In a zeroed block the columns become exactly the taps of the image and nothing else changes |
| Conv.Im2col3x3 | polyvoice-kernels/src/conv.rs:392-433 | The row copies give the same columns without needing a zeroed block |
| Conv.PackImages | polyvoice-kernels/src/conv.rs:344-355 | Packing planes side by side gives the 1x1 columns of the batch |
| Conv.Unpack | polyvoice-kernels/src/conv.rs:357-368 | Unpacking puts each channel of each image in its place |
| Conv.ProductHolds | polyvoice-kernels/src/conv.rs:223-303 | The product of weights and columns is the direct convolution |
| Conv.Forward | polyvoice-kernels/src/conv.rs:223-303 | Every path, single or batched, equals the direct convolution plus bias, rectified if asked, whatever the output and scratch buffers held |
| Conv.OutputAt | polyvoice-kernels/src/tensor.rs:54-57 | Entry (n, o, y, x) of the output buffer is the direct sum at that position |
| Conv.PositionsCount | polyvoice-kernels/src/conv.rs:153-157 | On both axes the output has a position for exactly the windows that fit the padded image |
| Seq1d.Dot | polyvoice-kernels/src/gemm.rs:564-587 | Four lanes and a tail give the plain dot product |
| Seq1d.Conv1dGeneric | polyvoice-kernels/src/seq1d.rs:126-154 | The generic loop computes the direct sum at every position |
| Seq1d.FillTile | polyvoice-kernels/src/seq1d.rs:244-255 | A tile's columns are the strided samples of its positions, whatever the buffer held |
| Seq1d.TileProduct | polyvoice-kernels/src/seq1d.rs:256-274 | A row of the tile's product is the matching piece of an output row |
| Seq1d.Conv1dTiled | polyvoice-kernels/src/seq1d.rs:156-278 | Tile after tile, last one shorter, the output equals the direct sum |
| Seq1d.WindowFits | polyvoice-kernels/src/seq1d.rs:134 | The output length counts exactly the windows that end inside the row |
| Seq1d.Conv1d | polyvoice-kernels/src/seq1d.rs:108-124 | Both paths of the dispatch give the direct sum, with one value in each row for every window that fits and no other |
| Seq1d.EntryAt | polyvoice-kernels/src/seq1d.rs:136-152 | For every sample, filter and window that fits, the output holds the direct sum at that place |
| Seq1d.MaxPoolRow | polyvoice-kernels/src/seq1d.rs:280-320 | The unrolled 3 by 3 path and the general scan both return the maximum of every window |
| VirtualIm2col.CopyPadded | polyvoice-kernels/src/rten_matmul.rs:776-787 | The padded image holds the pixels inside and the zero point everywhere else, whatever the buffer held |
| VirtualIm2col.FillOffsets | polyvoice-kernels/src/rten_matmul.rs:857-908 | One entry per tap and per position, then the sentinel up to the padded counts |
| VirtualIm2col.OffsetInside | polyvoice-kernels/src/rten_matmul.rs:788-803 | Row plus column offset stays inside the image and the stated bounds and leads to the tap's cell |
| VirtualIm2col.VirtualEntry | polyvoice-kernels/src/rten_matmul.rs:788-803 | The virtual matrix holds the input pixel or the zero point |
| VirtualIm2col.Entry | polyvoice-kernels/src/rten_matmul.rs:804-820 | The accumulator with both zero points subtracted is the zero-padded convolution of centred input and stored weights |
| VirtualIm2col.RunConv | polyvoice-kernels/src/rten_matmul.rs:695-823 | Every output value is that convolution rescaled by its channel, plus bias, rectified if asked |
| VirtualIm2col.RescaledAt | polyvoice-kernels/src/rten_matmul.rs:911-925 | An output value is the convolution times its channel's scale plus its channel's bias, rectified if asked |
| VirtualIm2col.PositionsCount | polyvoice-kernels/src/rten_matmul.rs:652-653 | On both axes the output has a position for exactly the windows that fit the padded image |

## Left out

- Floating point: rounding, NaN and float ties; the model computes over exact reals, and
  counts that the code casts to `f32` are exact.
- Machine integers: 64-bit wrap-around of indices and of the pack generation, and 32-bit
  overflow of the INT8 accumulator and offsets, except in the reader, where casts are modelled.
- Weak memory and panics inside jobs: the pool and the cache use sequentially consistent steps.
- The pool's serial lock is taken as what it provides: one dispatcher at a time, with two or more
  indices.
- Hungarian.Solve: costs are finite reals; a matrix holding an infinity or NaN is not modelled.
- Der.MaxWeightAssignment: the scipy branch is not modelled, only the solver below it, which
  shares the search of `Hungarian`.
- RTTM parsing, dataset totals and confidence intervals of the scorer.
- Attribution.AttributeWords: sentence smoothing and filling turns with text are not modelled;
  a word whose times are not finite cannot occur over the reals.
- The Euclidean centroid variant of clustering, whose loop is the one modelled with the negated
  distance as score, no renormalising and no established stop; the automatic threshold and the
  building of the first similarity matrix.
- Fewer windows than labels, which the documentation of the duration prune excludes.
- Pruning.FinishPrune: the similarity of a member to a survivor's centroid is a parameter, so
  centroid averaging and the cosine are not modelled.
- Chunking.Transcribe: backend errors are not modelled; the recogniser always answers.
- Protobuf error texts: the several truncation messages share one constructor per shape.
- OnnxTensor.ParseTensorProto: whether INT8 raw bytes are mapped or copied is not modelled, only
  their contents; float payloads are bit patterns.
- Dequantising, shape coercion and scale lookup of initializers, `dequant_oc`, fake quantisation
  and `pack_w_4x4`: each would add only easy members.
- Gemm.GemmBiasRow: calls into rten, Accelerate or OpenBLAS for large shapes are taken to
  compute the same product; NEON bodies and `gemm_bias` with a bias per column are left out.
- Addresses: a matrix element takes one address whatever its type, so caches of F32 and of INT8
  operands are compared by element and not by byte, and a model's weights are one block.
- PackCache.GemmUsesCurrentWeights: a GEMM with an empty operand or result, which caches nothing,
  and writes into a live model's weights, which the code has no way to make, are not modelled.
- VirtualIm2col.RunConv: rten's packing is taken as the product it computes through the offset
  tables, and images arrive quantised.
- The directory `polyvoice-kernels/src/conv_i8/` is not part of this model.
- LSTM and ResNet numerics, normalisation, activations, the command line, bindings, downloads and
  other wiring.

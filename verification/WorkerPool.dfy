/** The parked worker pool as a transition system: one dispatcher at a time (the
    `RUN` lock), any number of workers, a single batch slot of atomics, one mutex
    and two condition variables with spurious wake-ups. Every atomic access, lock
    acquisition and wait is a step of its own. */
module WorkerPool {

  datatype Job = Job(n: nat, func: nat, data: nat)

  datatype DispatcherPc =
    | Idle | StoreFunc | StoreData | StoreN | StoreNext | StoreLeft
    | LockToPublish | Bump | NotifyAll
    | DClaim | DRun(i: nat) | LockToWait | DCheck | DParked

  datatype WorkerPc =
    | Lock | Check | Parked
    | LoadN | LoadFunc | LoadData
    | Claim | Run(i: nat) | Leave
    | LockToNotify | Notify

  datatype Worker = Worker(pc: WorkerPc, seen: nat, n: nat, func: nat, data: nat)

  datatype Thread = Dispatch | Work(w: nat)

  datatype Holder = Free | Held(thread: Thread)

  /** The pool's atomics and mutex, the threads, and the history of the current
      batch: per index, how often it was begun, ended and by whom; per worker, how
      often it joined. */
  datatype State = State(
    batch: nat, next: nat, n: nat, func: nat, data: nat, left: int, mu: Holder,
    d: DispatcherPc, job: Job, ws: seq<Worker>,
    begun: seq<nat>, ended: seq<nat>, who: seq<Thread>, joins: seq<nat>)

  function Initial(workers: nat): State {
    State(0, 0, 0, 0, 0, 0, Free, Idle, Job(0, 0, 0),
          seq(workers, _ => Worker(Lock, 0, 0, 0, 0)), [], [], [], seq(workers, _ => 0))
  }

  datatype Action =
    | Start(job: Job)        // a caller takes the RUN lock and enters dispatch
    | Advance(t: Thread)     // the thread performs its next step
    | Spurious(t: Thread)    // a parked thread wakes without being notified

  function Inc(s: seq<nat>, i: nat): seq<nat> {
    if i < |s| then s[i := s[i] + 1] else s
  }

  function Mark(s: seq<Thread>, i: nat, t: Thread): seq<Thread> {
    if i < |s| then s[i := t] else s
  }

  predicate Valid(s: State, t: Thread) {
    t.Dispatch? || t.w < |s.ws|
  }

  predicate IsParked(s: State, t: Thread) {
    Valid(s, t) && if t.Dispatch? then s.d.DParked? else s.ws[t.w].pc.Parked?
  }

  predicate WantsLock(s: State, t: Thread)
    requires Valid(s, t)
  {
    if t.Dispatch? then s.d.LockToPublish? || s.d.LockToWait? else s.ws[t.w].pc.Lock? || s.ws[t.w].pc.LockToNotify?
  }

  predicate Enabled(s: State, a: Action) {
    match a
    case Start(job) => s.d.Idle? && job.n >= 2
    case Advance(t) =>
      Valid(s, t) && !IsParked(s, t) && !(t.Dispatch? && s.d.Idle?) && (WantsLock(s, t) ==> s.mu.Free?)
    case Spurious(t) => IsParked(s, t)
  }

  function DispatcherStep(s: State): State {
    match s.d
    case Idle => s
    case StoreFunc => s.(func := s.job.func, d := StoreData)
    case StoreData => s.(data := s.job.data, d := StoreN)
    case StoreN => s.(n := s.job.n, d := StoreNext)
    case StoreNext => s.(next := 0, d := StoreLeft)
    case StoreLeft => s.(left := |s.ws|, d := LockToPublish)
    case LockToPublish => s.(mu := Held(Dispatch), d := Bump)
    case Bump => s.(batch := s.batch + 1, d := NotifyAll)
    case NotifyAll => s.(ws := seq(|s.ws|, w requires 0 <= w < |s.ws| => WakeIfParked(s.ws[w])),
                         mu := Free, d := DClaim)
    case DClaim =>
      if s.next >= s.job.n then s.(next := s.next + 1, d := LockToWait)
      else s.(next := s.next + 1, d := DRun(s.next),
              begun := Inc(s.begun, s.next), who := Mark(s.who, s.next, Dispatch))
    case DRun(i) => s.(d := DClaim, ended := Inc(s.ended, i))
    case LockToWait => s.(mu := Held(Dispatch), d := DCheck)
    case DCheck => if s.left != 0 then s.(mu := Free, d := DParked) else s.(mu := Free, d := Idle)
    case DParked => s
  }

  function WakeIfParked(k: Worker): Worker {
    if k.pc.Parked? then k.(pc := Lock) else k
  }

  function WorkerStep(s: State, w: nat): State
    requires w < |s.ws|
  {
    var k := s.ws[w];
    match k.pc
    case Lock => s.(mu := Held(Work(w)), ws := s.ws[w := k.(pc := Check)])
    case Check =>
      if s.batch == k.seen then s.(mu := Free, ws := s.ws[w := k.(pc := Parked)])
      else s.(mu := Free, ws := s.ws[w := k.(pc := LoadN, seen := s.batch)], joins := Inc(s.joins, w))
    case Parked => s
    case LoadN => s.(ws := s.ws[w := k.(pc := LoadFunc, n := s.n)])
    case LoadFunc => s.(ws := s.ws[w := k.(pc := LoadData, func := s.func)])
    case LoadData => s.(ws := s.ws[w := k.(pc := Claim, data := s.data)])
    case Claim =>
      if s.next >= k.n then s.(next := s.next + 1, ws := s.ws[w := k.(pc := Leave)])
      else s.(next := s.next + 1, ws := s.ws[w := k.(pc := Run(s.next))],
              begun := Inc(s.begun, s.next), who := Mark(s.who, s.next, Work(w)))
    case Run(i) => s.(ws := s.ws[w := k.(pc := Claim)], ended := Inc(s.ended, i))
    case Leave => s.(left := s.left - 1, ws := s.ws[w := k.(pc := if s.left == 1 then LockToNotify else Lock)])
    case LockToNotify => s.(mu := Held(Work(w)), ws := s.ws[w := k.(pc := Notify)])
    case Notify => s.(mu := Free, ws := s.ws[w := k.(pc := Lock)], d := if s.d.DParked? then LockToWait else s.d)
  }

  function Step(s: State, a: Action): State
    requires Enabled(s, a)
  {
    match a
    case Start(job) =>
      s.(d := StoreFunc, job := job, begun := seq(job.n, _ => 0), ended := seq(job.n, _ => 0),
         who := seq(job.n, _ => Dispatch), joins := seq(|s.ws|, _ => 0))
    case Advance(t) => if t.Dispatch? then DispatcherStep(s) else WorkerStep(s, t.w)
    case Spurious(t) =>
      if t.Dispatch? then s.(d := LockToWait) else s.(ws := s.ws[t.w := s.ws[t.w].(pc := Lock)])
  }

  // ----- the invariant

  /** The batch counter has been raised for the current job. */
  predicate Published(d: DispatcherPc) {
    d.NotifyAll? || d.DClaim? || d.DRun? || d.LockToWait? || d.DCheck? || d.DParked?
  }

  /** Working on the current batch: between picking it up and leaving it. */
  predicate Busy(k: Worker) {
    k.pc.LoadN? || k.pc.LoadFunc? || k.pc.LoadData? || k.pc.Claim? || k.pc.Run? || k.pc.Leave?
  }

  /** Has not left the current batch yet. */
  predicate Pending(s: State, w: nat)
    requires w < |s.ws|
  {
    s.ws[w].seen != s.batch || Busy(s.ws[w])
  }

  ghost function PendingSet(s: State): set<nat> {
    set w | 0 <= w < |s.ws| && Pending(s, w)
  }

  ghost predicate MutexOk(s: State) {
    && (s.mu == Held(Dispatch) <==> s.d.Bump? || s.d.NotifyAll? || s.d.DCheck?)
    && (forall w :: 0 <= w < |s.ws| ==> (s.mu == Held(Work(w)) <==> s.ws[w].pc.Check? || s.ws[w].pc.Notify?))
    && (s.mu.Held? ==> Valid(s, s.mu.thread))
  }

  /** Workers are at most one batch behind, and only while it is published. */
  ghost predicate PhaseOk(s: State) {
    && (forall w :: 0 <= w < |s.ws| ==>
          s.ws[w].seen == s.batch || (Published(s.d) && s.ws[w].seen + 1 == s.batch && !Busy(s.ws[w])))
    && (!Published(s.d) ==> forall w :: 0 <= w < |s.ws| ==> !Busy(s.ws[w]))
    && (s.d.NotifyAll? ==> forall w :: 0 <= w < |s.ws| ==> s.ws[w].seen != s.batch)
    && (Published(s.d) ==> s.left == |PendingSet(s)|)
    && (s.d.Idle? ==> s.left == 0)
    && (s.d.LockToPublish? || s.d.Bump? ==> s.left == |s.ws|)
    && (!s.d.Idle? ==> s.job.n >= 2)
  }

  /** The slot and what workers have loaded of it agree with the current job. */
  ghost predicate SlotOk(s: State) {
    && (s.d.StoreData? || s.d.StoreN? || s.d.StoreNext? || Slotted(s.d) ==> s.func == s.job.func)
    && (s.d.StoreN? || s.d.StoreNext? || Slotted(s.d) ==> s.data == s.job.data)
    && (s.d.StoreNext? || Slotted(s.d) ==> s.n == s.job.n)
    && (s.d.StoreLeft? || s.d.LockToPublish? || s.d.Bump? ==> s.next == 0)
    && (forall w :: 0 <= w < |s.ws| && Busy(s.ws[w]) ==> Loaded(s.ws[w], s.job))
  }

  predicate Slotted(d: DispatcherPc) {
    d.StoreLeft? || d.LockToPublish? || d.Bump? || Published(d)
  }

  predicate Loaded(k: Worker, job: Job) {
    && (!k.pc.LoadN? ==> k.n == job.n)
    && (!k.pc.LoadN? && !k.pc.LoadFunc? ==> k.func == job.func)
    && (!k.pc.LoadN? && !k.pc.LoadFunc? && !k.pc.LoadData? ==> k.data == job.data)
  }

  /** The thread is inside the call for index `i`. */
  predicate Calling(s: State, t: Thread, i: nat) {
    Valid(s, t) && if t.Dispatch? then s.d == DRun(i) else s.ws[t.w].pc == Run(i)
  }

  /** A call is under way only for an index its thread has claimed in a published batch. */
  ghost predicate CallsOk(s: State) {
    && (!s.d.Idle? ==> |s.begun| == |s.ended| == |s.who| == s.job.n)
    && (forall t, i: nat :: Calling(s, t, i) ==> Published(s.d) && i < s.next && i < s.job.n && s.who[i] == t)
  }

  /** Every index below `next` was begun once and has ended unless its claimer is
      still in the call; no other index was touched. */
  ghost predicate CountsOk(s: State)
    requires CallsOk(s)
  {
    && (!s.d.Idle? && !Published(s.d) ==> forall i :: 0 <= i < s.job.n ==> s.begun[i] == 0 && s.ended[i] == 0)
    && (Published(s.d) ==> forall i :: 0 <= i < s.job.n ==> IndexOk(s, i))
  }

  ghost predicate IndexOk(s: State, i: nat)
    requires i < |s.begun| == |s.ended| == |s.who|
  {
    && s.begun[i] == (if i < s.next then 1 else 0)
    && s.ended[i] == (if i < s.next && !Calling(s, s.who[i], i) then 1 else 0)
  }

  ghost predicate JoinsOk(s: State) {
    && |s.joins| == |s.ws|
    && (!s.d.Idle? && !Published(s.d) ==> forall w :: 0 <= w < |s.ws| ==> s.joins[w] == 0)
    && (Published(s.d) ==> forall w :: 0 <= w < |s.ws| ==> s.joins[w] == if s.ws[w].seen == s.batch then 1 else 0)
  }

  /** Whoever has stopped claiming saw every index claimed. */
  ghost predicate ExhaustedOk(s: State) {
    && (s.d.LockToWait? || s.d.DCheck? || s.d.DParked? ==> s.next >= s.job.n)
    && (forall w :: 0 <= w < |s.ws| && s.ws[w].pc.Leave? ==> s.next >= s.job.n)
  }

  ghost predicate ClaimsOk(s: State) {
    CallsOk(s) && CountsOk(s) && JoinsOk(s) && ExhaustedOk(s)
  }

  /** No wake-up is lost. */
  ghost predicate WakeOk(s: State) {
    && (forall w :: 0 <= w < |s.ws| && s.ws[w].pc.Parked? && s.ws[w].seen != s.batch ==> s.d.NotifyAll?)
    && (s.d.DParked? && s.left == 0 ==>
          exists w :: 0 <= w < |s.ws| && (s.ws[w].pc.LockToNotify? || s.ws[w].pc.Notify?))
  }

  ghost predicate Inv(s: State) {
    MutexOk(s) && PhaseOk(s) && SlotOk(s) && ClaimsOk(s) && WakeOk(s)
  }

  lemma InitialInv(workers: nat)
    ensures Inv(Initial(workers))
  {
  }

  // ----- one step of a worker, one of the dispatcher, and the rest

  predicate CanWork(s: State, w: nat) {
    w < |s.ws| && Enabled(s, Advance(Work(w)))
  }

  predicate CanDispatch(s: State) {
    Enabled(s, Advance(Dispatch))
  }

  lemma WorkerMutex(s: State, w: nat)
    requires Inv(s) && CanWork(s, w)
    ensures MutexOk(WorkerStep(s, w))
  {
    var s' := WorkerStep(s, w);
    forall x | 0 <= x < |s'.ws| ensures s'.mu == Held(Work(x)) <==> s'.ws[x].pc.Check? || s'.ws[x].pc.Notify? {
      assert s.mu == Held(Work(x)) <==> s.ws[x].pc.Check? || s.ws[x].pc.Notify?;
      assert s.mu == Held(Work(w)) <==> s.ws[w].pc.Check? || s.ws[w].pc.Notify?;
    }
  }

  lemma DispatcherMutex(s: State)
    requires Inv(s) && CanDispatch(s)
    ensures MutexOk(DispatcherStep(s))
  {
  }

  ghost function Below(n: nat): (r: set<nat>)
    ensures |r| == n && forall x: nat :: x in r <==> x < n
  {
    if n == 0 then {} else Below(n - 1) + {n - 1}
  }

  /** Only the step that leaves the batch takes a worker out of the pending set. */
  lemma WorkerPending(s: State, w: nat)
    requires Inv(s) && CanWork(s, w)
    ensures PendingSet(WorkerStep(s, w)) == if s.ws[w].pc.Leave? then PendingSet(s) - {w} else PendingSet(s)
    ensures s.ws[w].pc.Leave? ==> w in PendingSet(s)
  {
    var s' := WorkerStep(s, w);
    assert Pending(s', w) == (Pending(s, w) && !s.ws[w].pc.Leave?);
    assert forall x :: 0 <= x < |s.ws| && x != w ==> Pending(s', x) == Pending(s, x);
  }

  /** A worker's step leaves the batch, the job and the other workers alone, and
      keeps the worker itself in step with the batch. */
  lemma WorkerStays(s: State, w: nat)
    requires Inv(s) && CanWork(s, w)
    ensures var s' := WorkerStep(s, w);
      && s'.batch == s.batch && s'.job == s.job && |s'.ws| == |s.ws| && Published(s'.d) == Published(s.d)
      && (s'.d == s.d || (s.d.DParked? && s'.d.LockToWait?))
      && s'.left == s.left - (if s.ws[w].pc.Leave? then 1 else 0)
      && (forall x :: 0 <= x < |s.ws| && x != w ==> s'.ws[x] == s.ws[x])
      && (Busy(s'.ws[w]) ==> Published(s.d) && s'.ws[w].seen == s.batch)
      && (s'.ws[w].seen == s.ws[w].seen || s'.ws[w].seen == s.batch)
      && (s.d.NotifyAll? ==> s'.ws[w].seen != s.batch)
  {
  }

  lemma WorkerPhase(s: State, w: nat)
    requires Inv(s) && CanWork(s, w)
    ensures PhaseOk(WorkerStep(s, w))
  {
    WorkerPending(s, w);
    WorkerStays(s, w);
  }

  /** Raising the batch counter leaves every worker pending. */
  lemma BumpPhase(s: State)
    requires Inv(s) && s.d.Bump?
    ensures PhaseOk(DispatcherStep(s))
  {
    assert PendingSet(DispatcherStep(s)) == Below(|s.ws|);
  }

  lemma DispatcherPhase(s: State)
    requires Inv(s) && CanDispatch(s)
    ensures PhaseOk(DispatcherStep(s))
  {
    var s' := DispatcherStep(s);
    if s.d.Bump? {
      BumpPhase(s);
    } else {
      assert PendingSet(s') == PendingSet(s);
      if s.d.DCheck? && s.left == 0 {
        NobodyPending(s);
      }
    }
  }

  lemma NobodyPending(s: State)
    requires PhaseOk(s) && Published(s.d) && s.left == 0
    ensures forall w :: 0 <= w < |s.ws| ==> s.ws[w].seen == s.batch && !Busy(s.ws[w])
  {
    assert PendingSet(s) == {};
    forall w | 0 <= w < |s.ws| ensures s.ws[w].seen == s.batch && !Busy(s.ws[w]) {
      assert w !in PendingSet(s);
    }
  }

  lemma WorkerSlot(s: State, w: nat)
    requires Inv(s) && CanWork(s, w)
    ensures SlotOk(WorkerStep(s, w))
  {
  }

  lemma DispatcherSlot(s: State)
    requires Inv(s) && CanDispatch(s)
    ensures SlotOk(DispatcherStep(s))
  {
  }

  lemma WorkerCalls(s: State, w: nat)
    requires Inv(s) && CanWork(s, w)
    ensures CallsOk(WorkerStep(s, w))
  {
    var s' := WorkerStep(s, w);
    forall t, i: nat | Calling(s', t, i)
      ensures Published(s'.d) && i < s'.next && i < s'.job.n && s'.who[i] == t
    {
      assert Calling(s, t, i) || (t == Work(w) && s.ws[w].pc.Claim? && i == s.next);
    }
  }

  lemma WorkerIndex(s: State, w: nat, i: nat)
    requires Inv(s) && CanWork(s, w) && CallsOk(WorkerStep(s, w)) && Published(s.d) && i < s.job.n
    ensures IndexOk(WorkerStep(s, w), i)
  {
    var s' := WorkerStep(s, w);
    assert IndexOk(s, i);
    if s.ws[w].pc.Run? { assert Calling(s, Work(w), s.ws[w].pc.i); }
    if s.who[i] != Work(w) { assert Calling(s', s.who[i], i) == Calling(s, s.who[i], i); }
  }

  lemma WorkerCounts(s: State, w: nat)
    requires Inv(s) && CanWork(s, w) && CallsOk(WorkerStep(s, w))
    ensures CountsOk(WorkerStep(s, w))
  {
    WorkerStays(s, w);
    if Published(s.d) {
      forall i | 0 <= i < s.job.n ensures IndexOk(WorkerStep(s, w), i) {
        WorkerIndex(s, w, i);
      }
    }
  }

  lemma WorkerClaims(s: State, w: nat)
    requires Inv(s) && CanWork(s, w)
    ensures ClaimsOk(WorkerStep(s, w))
  {
    WorkerCalls(s, w);
    WorkerCounts(s, w);
  }

  lemma DispatcherCalls(s: State)
    requires Inv(s) && CanDispatch(s)
    ensures CallsOk(DispatcherStep(s))
  {
    var s' := DispatcherStep(s);
    if s.d.DCheck? && s.left == 0 { NobodyPending(s); }
    forall t, i: nat | Calling(s', t, i)
      ensures Published(s'.d) && i < s'.next && i < s'.job.n && s'.who[i] == t
    {
      assert Calling(s, t, i) || (t == Dispatch && s.d.DClaim? && i == s.next);
    }
  }

  lemma DispatcherCounts(s: State)
    requires Inv(s) && CanDispatch(s) && CallsOk(DispatcherStep(s))
    ensures CountsOk(DispatcherStep(s))
  {
    var s' := DispatcherStep(s);
    if Published(s'.d) && Published(s.d) {
      forall i | 0 <= i < s.job.n ensures IndexOk(s', i) {
        assert IndexOk(s, i);
        if s.d.DRun? { assert Calling(s, Dispatch, s.d.i); }
        if s.who[i] != Dispatch { assert Calling(s', s.who[i], i) == Calling(s, s.who[i], i); }
      }
    }
  }

  lemma DispatcherClaims(s: State)
    requires Inv(s) && CanDispatch(s)
    ensures ClaimsOk(DispatcherStep(s))
  {
    DispatcherCalls(s);
    DispatcherCounts(s);
  }

  lemma WorkerWake(s: State, w: nat)
    requires Inv(s) && CanWork(s, w)
    ensures WakeOk(WorkerStep(s, w))
  {
    var s' := WorkerStep(s, w);
    if s'.d.DParked? && s'.left == 0 {
      if s.left == 0 {
        var x :| 0 <= x < |s.ws| && (s.ws[x].pc.LockToNotify? || s.ws[x].pc.Notify?);
        assert s'.ws[x].pc.LockToNotify? || s'.ws[x].pc.Notify?;
      } else {
        assert s'.ws[w].pc.LockToNotify?;
      }
    }
  }

  lemma DispatcherWake(s: State)
    requires Inv(s) && CanDispatch(s)
    ensures WakeOk(DispatcherStep(s))
  {
  }

  lemma SpuriousInv(s: State, t: Thread)
    requires Inv(s) && Enabled(s, Spurious(t))
    ensures Inv(Step(s, Spurious(t)))
  {
    var s' := Step(s, Spurious(t));
    assert PendingSet(s') == PendingSet(s);
    assert forall x, i: nat :: Calling(s', x, i) <==> Calling(s, x, i);
    if Published(s.d) {
      forall i | 0 <= i < s.job.n ensures IndexOk(s', i) {
        assert IndexOk(s, i) && Calling(s', s.who[i], i) == Calling(s, s.who[i], i);
      }
    }
  }

  lemma StartInv(s: State, job: Job)
    requires Inv(s) && Enabled(s, Start(job))
    ensures Inv(Step(s, Start(job)))
  {
  }

  lemma DispatcherInv(s: State)
    requires Inv(s) && CanDispatch(s)
    ensures Inv(DispatcherStep(s)) && |DispatcherStep(s).ws| == |s.ws|
  {
    DispatcherMutex(s);
    DispatcherPhase(s);
    DispatcherSlot(s);
    DispatcherClaims(s);
    DispatcherWake(s);
  }

  lemma WorkerInv(s: State, w: nat)
    requires Inv(s) && CanWork(s, w)
    ensures Inv(WorkerStep(s, w)) && |WorkerStep(s, w).ws| == |s.ws|
  {
    WorkerMutex(s, w);
    WorkerPhase(s, w);
    WorkerSlot(s, w);
    WorkerClaims(s, w);
    WorkerWake(s, w);
  }

  /** Every step keeps the invariant. */
  lemma StepInv(s: State, a: Action)
    requires Inv(s) && Enabled(s, a)
    ensures Inv(Step(s, a)) && |Step(s, a).ws| == |s.ws|
  {
    match a
    case Start(job) => StartInv(s, job);
    case Spurious(t) => SpuriousInv(s, t);
    case Advance(Dispatch) => DispatcherInv(s);
    case Advance(Work(w)) => WorkerInv(s, w);
  }

  // ----- runs

  /** The states passed through when the actions are taken one by one from `s`. */
  ghost predicate Leads(s: State, acts: seq<Action>, end: State)
    decreases |acts|
  {
    if acts == [] then end == s
    else Enabled(s, acts[0]) && Leads(Step(s, acts[0]), acts[1..], end)
  }

  ghost predicate Reachable(workers: nat, s: State) {
    exists acts :: Leads(Initial(workers), acts, s)
  }

  lemma {:induction false} RunInv(s: State, acts: seq<Action>, end: State)
    requires Inv(s) && Leads(s, acts, end)
    ensures Inv(end) && |end.ws| == |s.ws|
    decreases |acts|
  {
    if acts != [] {
      var next := Step(s, acts[0]);
      StepInv(s, acts[0]);
      RunInv(next, acts[1..], end);
    }
  }

  lemma ReachableInv(workers: nat, s: State)
    requires Reachable(workers, s)
    ensures Inv(s) && |s.ws| == workers
  {
    var acts :| Leads(Initial(workers), acts, s);
    InitialInv(workers);
    RunInv(Initial(workers), acts, s);
  }

  // ----- safety

  /** A call in progress is for an index of the batch that is published right now,
      with that batch's function and data; so no call sees `data` before the
      batch is published or after dispatch returns. */
  lemma CallsUseTheCurrentBatch(workers: nat, s: State, t: Thread, i: nat)
    requires Reachable(workers, s) && Calling(s, t, i)
    ensures Published(s.d) && i < s.job.n == |s.begun| == |s.ended| && s.begun[i] == 1 && s.ended[i] == 0
    ensures t.Work? ==> s.ws[t.w].func == s.job.func && s.ws[t.w].data == s.job.data
    ensures forall t' :: Calling(s, t', i) ==> t' == t
  {
    ReachableInv(workers, s);
    assert IndexOk(s, i);
  }

  /** The step with which dispatch returns. */
  predicate Returns(s: State, a: Action) {
    a == Advance(Dispatch) && s.d.DCheck? && s.left == 0
  }

  /** Every index was called once and every call is over, every worker has joined the
      batch once, and nobody still holds on to it. */
  ghost predicate Complete(s: State) {
    && |s.begun| == |s.ended| == s.job.n && |s.joins| == |s.ws|
    && (forall i :: 0 <= i < s.job.n ==> s.begun[i] == 1 && s.ended[i] == 1)
    && (forall w :: 0 <= w < |s.ws| ==> s.joins[w] == 1 && !Busy(s.ws[w]))
  }

  lemma ReturnCompletes(s: State, a: Action)
    requires Inv(s) && Enabled(s, a) && Returns(s, a)
    ensures Step(s, a).d.Idle? && Complete(Step(s, a))
  {
    NobodyPending(s);
    forall i | 0 <= i < s.job.n ensures s.begun[i] == 1 && s.ended[i] == 1 {
      assert IndexOk(s, i);
      if s.who[i].Work? && s.who[i].w < |s.ws| {
        assert !Busy(s.ws[s.who[i].w]);
      }
    }
  }

  /** When dispatch returns, the batch is complete. */
  lemma ReturnIsComplete(workers: nat, s: State, a: Action)
    requires Reachable(workers, s) && Enabled(s, a) && Returns(s, a)
    ensures Step(s, a).d.Idle? && Complete(Step(s, a)) && |Step(s, a).ws| == workers
    ensures Step(s, a).job == s.job
  {
    ReachableInv(workers, s);
    ReturnCompletes(s, a);
  }

  /** Only the return step, taken with `left == 0`, ends a batch. */
  lemma OnlyReturnsEndABatch(s: State, a: Action)
    requires Enabled(s, a) && !s.d.Idle? && Step(s, a).d.Idle?
    ensures Returns(s, a)
  {
  }

  // ----- progress

  lemma HolderCanMove(s: State)
    requires Inv(s) && s.mu.Held?
    ensures Enabled(s, Advance(s.mu.thread))
  {
  }

  lemma PendingWorker(s: State) returns (w: nat)
    requires Inv(s) && s.d.DParked?
    ensures w < |s.ws| && !s.ws[w].pc.Parked?
  {
    if s.left == 0 {
      w :| 0 <= w < |s.ws| && (s.ws[w].pc.LockToNotify? || s.ws[w].pc.Notify?);
    } else {
      assert PendingSet(s) != {};
      w :| w in PendingSet(s);
    }
  }

  /** No deadlock and no lost wake-up: while a batch is open, some thread can take
      a step without any spurious wake-up. */
  lemma SomeoneCanMove(workers: nat, s: State) returns (t: Thread)
    requires Reachable(workers, s) && !s.d.Idle?
    ensures Enabled(s, Advance(t))
  {
    ReachableInv(workers, s);
    t := OpenCanMove(s);
  }

  lemma OpenCanMove(s: State) returns (t: Thread)
    requires Inv(s) && !s.d.Idle?
    ensures Enabled(s, Advance(t))
  {
    if s.mu.Held? {
      HolderCanMove(s);
      t := s.mu.thread;
    } else if s.d.DParked? {
      var w := PendingWorker(s);
      t := Work(w);
    } else {
      t := Dispatch;
    }
  }

  // ----- termination

  function DispatcherRank(d: DispatcherPc, workers: nat): nat {
    match d
    case Idle => 0 case DParked => 1 case DCheck => 2 case LockToWait => 3
    case DClaim => 4 case DRun(_) => 5 case NotifyAll => 6
    case Bump => 7 + 16 * workers case LockToPublish => 8 + 16 * workers
    case StoreLeft => 9 + 16 * workers case StoreNext => 10 + 16 * workers case StoreN => 11 + 16 * workers
    case StoreData => 12 + 16 * workers case StoreFunc => 13 + 16 * workers
  }

  function WorkerRank(pc: WorkerPc, behind: bool): nat {
    match pc
    case LoadN => 12 case LoadFunc => 11 case LoadData => 10
    case Claim => 9 case Run(_) => 10 case Leave => 8
    case Parked => if behind then 15 else 0
    case Check => if behind then 13 else 1
    case Lock => if behind then 14 else 2
    case Notify => if behind then 18 else 6
    case LockToNotify => if behind then 19 else 7
  }

  function Ranks(ws: seq<Worker>, batch: nat): nat {
    if ws == [] then 0
    else Ranks(ws[..|ws| - 1], batch) + WorkerRank(ws[|ws| - 1].pc, ws[|ws| - 1].seen != batch)
  }

  /** Claims the batch still has to hand out. */
  function Unclaimed(s: State): nat {
    if s.d.Idle? then 0 else if !Published(s.d) then s.job.n else if s.next < s.job.n then s.job.n - s.next else 0
  }

  function Measure(s: State): nat {
    DispatcherRank(s.d, |s.ws|) + 2 * Unclaimed(s) + Ranks(s.ws, s.batch)
  }

  function Rank(k: Worker, batch: nat): nat {
    WorkerRank(k.pc, k.seen != batch)
  }

  lemma {:induction false} RanksUpdate(ws: seq<Worker>, batch: nat, w: nat, k: Worker)
    requires w < |ws|
    ensures Ranks(ws[w := k], batch) == Ranks(ws, batch) - Rank(ws[w], batch) + Rank(k, batch)
  {
    var m := |ws| - 1;
    if w == m {
      assert ws[w := k][..m] == ws[..m];
    } else {
      RanksUpdate(ws[..m], batch, w, k);
      assert ws[w := k][..m] == ws[..m][w := k];
    }
  }

  lemma TimesMore(x: int, n: nat)
    ensures x * (n + 1) == x * n + x
  {
  }

  /** Changing every worker raises the sum by at most `up` each. */
  lemma {:induction false} RanksRaise(ws: seq<Worker>, batch: nat, ws': seq<Worker>, batch': nat, up: int)
    requires |ws| == |ws'|
    requires forall w :: 0 <= w < |ws| ==> Rank(ws'[w], batch') <= Rank(ws[w], batch) + up
    ensures Ranks(ws', batch') <= Ranks(ws, batch) + up * |ws|
  {
    if ws != [] {
      var m := |ws| - 1;
      RanksRaise(ws[..m], batch, ws'[..m], batch', up);
      TimesMore(up, m);
      assert Rank(ws'[m], batch') <= Rank(ws[m], batch) + up;
    }
  }

  lemma {:induction false} RanksBound(ws: seq<Worker>, batch: nat, top: nat)
    requires forall w :: 0 <= w < |ws| ==> Rank(ws[w], batch) <= top
    ensures Ranks(ws, batch) <= top * |ws|
  {
    if ws != [] {
      var m := |ws| - 1;
      RanksBound(ws[..m], batch, top);
      TimesMore(top, m);
      assert Rank(ws[m], batch) <= top;
    }
  }

  /** A worker's own rank pays for whatever its step does to the others. */
  lemma WorkerPays(s: State, w: nat)
    requires Inv(s) && CanWork(s, w)
    ensures var s' := WorkerStep(s, w);
      && |s'.ws| == |s.ws| && s'.batch == s.batch && s'.ws == s.ws[w := s'.ws[w]]
      && DispatcherRank(s'.d, |s.ws|) + 2 * Unclaimed(s') + Rank(s'.ws[w], s.batch)
         < DispatcherRank(s.d, |s.ws|) + 2 * Unclaimed(s) + Rank(s.ws[w], s.batch)
  {
    assert Busy(s.ws[w]) ==> Published(s.d) && s.ws[w].seen == s.batch && Loaded(s.ws[w], s.job);
  }

  lemma WorkerProgress(s: State, w: nat)
    requires Inv(s) && CanWork(s, w)
    ensures Measure(WorkerStep(s, w)) < Measure(s)
  {
    WorkerPays(s, w);
    RanksUpdate(s.ws, s.batch, w, WorkerStep(s, w).ws[w]);
  }

  /** Publishing makes every worker pending: at most 15 ranks up each. */
  lemma BumpRanks(s: State)
    requires Inv(s) && s.d.Bump?
    ensures Ranks(s.ws, s.batch + 1) <= Ranks(s.ws, s.batch) + 15 * |s.ws|
  {
    RanksRaise(s.ws, s.batch, s.ws, s.batch + 1, 15);
  }

  /** Waking the parked workers moves them one rank down. */
  lemma NotifyRanks(s: State)
    requires Inv(s) && s.d.NotifyAll?
    ensures Ranks(DispatcherStep(s).ws, s.batch) <= Ranks(s.ws, s.batch)
  {
    RanksRaise(s.ws, s.batch, DispatcherStep(s).ws, s.batch, 0);
  }

  /** Apart from the two steps that touch the workers, the dispatcher's own rank
      and the unclaimed indices pay for its step. */
  lemma DispatcherPays(s: State)
    requires Inv(s) && CanDispatch(s)
    ensures var s' := DispatcherStep(s);
      && |s'.ws| == |s.ws|
      && (!s.d.Bump? && !s.d.NotifyAll? ==> s'.ws == s.ws && s'.batch == s.batch)
      && DispatcherRank(s'.d, |s.ws|) + 2 * Unclaimed(s') + (if s.d.Bump? then 15 * |s.ws| else 0)
         < DispatcherRank(s.d, |s.ws|) + 2 * Unclaimed(s)
  {
  }

  lemma DispatcherProgress(s: State)
    requires Inv(s) && CanDispatch(s)
    ensures Measure(DispatcherStep(s)) < Measure(s)
  {
    DispatcherPays(s);
    if s.d.Bump? {
      BumpRanks(s);
    } else if s.d.NotifyAll? {
      NotifyRanks(s);
    }
  }

  lemma SpuriousCost(s: State, t: Thread)
    requires Enabled(s, Spurious(t))
    ensures Measure(Step(s, Spurious(t))) <= Measure(s) + 2
  {
    if t.Work? {
      RanksUpdate(s.ws, s.batch, t.w, s.ws[t.w].(pc := Lock));
    }
  }

  function Advances(acts: seq<Action>): nat {
    if acts == [] then 0 else (if acts[0].Advance? then 1 else 0) + Advances(acts[1..])
  }

  function Spurs(acts: seq<Action>): nat {
    if acts == [] then 0 else (if acts[0].Spurious? then 1 else 0) + Spurs(acts[1..])
  }

  predicate NoStart(acts: seq<Action>) {
    forall k :: 0 <= k < |acts| ==> !acts[k].Start?
  }

  lemma {:induction false} RunIsShort(s: State, acts: seq<Action>, end: State)
    requires Inv(s) && Leads(s, acts, end) && NoStart(acts)
    ensures Advances(acts) + Measure(end) <= Measure(s) + 2 * Spurs(acts)
    decreases |acts|
  {
    if acts != [] {
      StepInv(s, acts[0]);
      RunIsShort(Step(s, acts[0]), acts[1..], end);
      match acts[0]
      case Spurious(t) => SpuriousCost(s, t);
      case Advance(Dispatch) => DispatcherProgress(s);
      case Advance(Work(w)) => WorkerProgress(s, w);
    }
  }

  /** Once a batch has started, and apart from two extra steps per spurious
      wake-up, the threads can take only so many steps: linear in the number of
      indices and of workers. With `SomeoneCanMove`, dispatch always returns. */
  lemma BatchIsShort(workers: nat, s: State, job: Job, acts: seq<Action>, end: State)
    requires Reachable(workers, s) && Enabled(s, Start(job))
    requires Leads(Step(s, Start(job)), acts, end) && NoStart(acts)
    ensures Advances(acts) <= 13 + 23 * workers + 2 * job.n + 2 * Spurs(acts)
  {
    ReachableInv(workers, s);
    StepInv(s, Start(job));
    RunIsShort(Step(s, Start(job)), acts, end);
    RanksBound(s.ws, s.batch, 7);
  }

  // ----- a batch from start to return

  /** A returned batch is complete, and stays so while nobody starts another. */
  lemma CompleteStays(s: State, a: Action)
    requires Inv(s) && Enabled(s, a) && !a.Start? && (s.d.Idle? ==> Complete(s))
    ensures Step(s, a).d.Idle? ==> Complete(Step(s, a))
    ensures Step(s, a).job == s.job
  {
    if !s.d.Idle? && Step(s, a).d.Idle? {
      OnlyReturnsEndABatch(s, a);
      ReturnCompletes(s, a);
    }
  }

  lemma {:induction false} RunCompletes(s: State, acts: seq<Action>, end: State)
    requires Inv(s) && Leads(s, acts, end) && NoStart(acts) && (s.d.Idle? ==> Complete(s))
    ensures Inv(end) && end.job == s.job && (end.d.Idle? ==> Complete(end))
    decreases |acts|
  {
    if acts != [] {
      StepInv(s, acts[0]);
      CompleteStays(s, acts[0]);
      RunCompletes(Step(s, acts[0]), acts[1..], end);
    }
  }

  /** A run of one batch, from its start in a reachable state, with no other start. */
  ghost predicate BatchRun(workers: nat, job: Job, acts: seq<Action>, end: State) {
    exists s :: Reachable(workers, s) && Enabled(s, Start(job)) && Leads(Step(s, Start(job)), acts, end) &&
      NoStart(acts)
  }

  /** No thread can take a real step. */
  ghost predicate Stuck(s: State) {
    forall t :: !Enabled(s, Advance(t))
  }

  /** A run of a batch that no thread can extend has returned with the batch complete,
      after a bounded number of real steps; and one that has returned is complete. */
  lemma StuckHasReturned(workers: nat, job: Job, acts: seq<Action>, end: State)
    requires BatchRun(workers, job, acts, end)
    ensures Advances(acts) <= 13 + 23 * workers + 2 * job.n + 2 * Spurs(acts)
    ensures Stuck(end) ==> end.d.Idle?
    ensures end.d.Idle? ==> Complete(end) && end.job == job && |end.ws| == workers
  {
    var s :| Reachable(workers, s) && Enabled(s, Start(job)) && Leads(Step(s, Start(job)), acts, end) && NoStart(acts);
    BatchIsShort(workers, s, job, acts, end);
    ReachableInv(workers, s);
    StepInv(s, Start(job));
    RunInv(Step(s, Start(job)), acts, end);
    RunCompletes(Step(s, Start(job)), acts, end);
    if Stuck(end) && !end.d.Idle? {
      var t := OpenCanMove(end);
      assert false;
    }
  }

  /** From any point of a batch the threads can bring it to its return without help. */
  lemma {:induction false} CanReturn(s: State) returns (acts: seq<Action>, end: State)
    requires Inv(s) && (s.d.Idle? ==> Complete(s))
    ensures Leads(s, acts, end) && NoStart(acts) && Spurs(acts) == 0
    ensures end.d.Idle? && Complete(end) && end.job == s.job
    decreases Measure(s)
  {
    if s.d.Idle? {
      acts, end := [], s;
    } else {
      var t := OpenCanMove(s);
      var next := Step(s, Advance(t));
      StepInv(s, Advance(t));
      CompleteStays(s, Advance(t));
      if t.Dispatch? { DispatcherProgress(s); } else { WorkerProgress(s, t.w); }
      var rest;
      rest, end := CanReturn(next);
      acts := [Advance(t)] + rest;
      assert acts[1..] == rest;
    }
  }

  // ----- run

  /** The calls `run` makes itself instead of dispatching: `None` means dispatch. */
  function DirectCalls(n: nat, workers: nat, lockTaken: bool): (calls: seq<nat>)
    requires !Dispatches(n, workers, lockTaken)
  {
    var n := if n > 1 then n else 1;
    if n == 1 || workers == 0 then [0] else seq(n, i => i)
  }

  predicate Dispatches(n: nat, workers: nat, lockTaken: bool) {
    n > 1 && workers > 0 && !lockTaken
  }

  /** Each index below `n` exactly once, and nothing else. */
  ghost predicate OnceEach(calls: multiset<nat>, n: nat) {
    forall i: nat :: calls[i] == if i < n then 1 else 0
  }

  lemma {:induction false} CountingUp(n: nat)
    ensures OnceEach(multiset(seq(n, i => i)), n)
  {
    if n > 0 {
      CountingUp(n - 1);
      assert seq(n, i => i) == seq(n - 1, i => i) + [n - 1];
    }
  }

  /** Without a dispatch, `run(n, f)` calls `f` on 0..n once each exactly when
      `n == 1` or there is a worker; a pool without workers drops the indices
      above 0, and `n == 0` still calls `f(0)`. */
  lemma DirectCallsCover(n: nat, workers: nat, lockTaken: bool)
    requires !Dispatches(n, workers, lockTaken)
    ensures OnceEach(multiset(DirectCalls(n, workers, lockTaken)), n) <==> n == 1 || (n > 1 && workers > 0)
  {
    if n > 1 && workers > 0 {
      CountingUp(n);
    } else {
      assert multiset(DirectCalls(n, workers, lockTaken))[0] == 1;
      assert multiset(DirectCalls(n, workers, lockTaken))[1] == 0;
    }
  }

  /** The calls of a batch, once it has returned. */
  ghost predicate BatchCalls(end: State, calls: multiset<nat>) {
    && (forall i: nat :: i < |end.begun| ==> calls[i] == end.begun[i])
    && (forall i: nat :: i >= |end.begun| ==> calls[i] == 0)
  }

  /** `calls` are the indices `run(n, f)` has called `f` on when it returns: its own calls,
      or those of all threads along some run of the dispatched batch. */
  ghost predicate RunCalls(n: nat, workers: nat, lockTaken: bool, calls: multiset<nat>) {
    if Dispatches(n, workers, lockTaken) then
      exists job: Job, acts, end ::
        job.n == n && BatchRun(workers, job, acts, end) && end.d.Idle? && BatchCalls(end, calls)
    else calls == multiset(DirectCalls(n, workers, lockTaken))
  }

  /** However the threads interleave and whichever path `run(n, f)` takes, it calls each
      index below `n` exactly once and no other exactly when `n == 1`, or `n > 1` and the
      pool has a worker. */
  lemma RunCovers(n: nat, workers: nat, lockTaken: bool, calls: multiset<nat>)
    requires RunCalls(n, workers, lockTaken, calls)
    ensures OnceEach(calls, n) <==> n == 1 || (n > 1 && workers > 0)
  {
    if Dispatches(n, workers, lockTaken) {
      var job: Job, acts, end :|
        job.n == n && BatchRun(workers, job, acts, end) && end.d.Idle? && BatchCalls(end, calls);
      StuckHasReturned(workers, job, acts, end);
    } else {
      DirectCallsCover(n, workers, lockTaken);
    }
  }

  lemma WorkerlessPoolDropsWork()
    ensures DirectCalls(4, 0, false) == [0] && !OnceEach(multiset(DirectCalls(4, 0, false)), 4)
  {
    DirectCallsCover(4, 0, false);
  }
}

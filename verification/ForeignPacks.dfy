/** GEMM calls on memory that no model holds, and what their packs do to later calls: the
    exact condition under which a thread's cache may be trusted, and runs in which it
    may not. */
module ForeignPacks {
  import opened PackCache
  import opened Wrappers

  // ----- putting runs together

  lemma {:induction false} LeadsOn(s: State, a: seq<Action>, mid: State, b: seq<Action>, end: State)
    requires Leads(s, a, mid) && Leads(mid, b, end)
    ensures Leads(s, a + b, end)
    decreases |a|
  {
    if a == [] {
      assert a + b == b;
    } else {
      LeadsOn(Step(s, a[0]), a[1..], mid, b, end);
      assert (a + b)[1..] == a[1..] + b;
    }
  }

  lemma OneStep(s: State, a: Action)
    requires Enabled(s, a)
    ensures Leads(s, [a], Step(s, a))
  {
    assert [a][1..] == [];
  }

  lemma LeadsFirst(s: State, a: Action, rest: seq<Action>, end: State)
    requires Enabled(s, a) && Leads(Step(s, a), rest, end)
    ensures Leads(s, [a] + rest, end)
  {
    assert ([a] + rest)[1..] == rest;
  }

  lemma NoForeignOn(a: seq<Action>, b: seq<Action>, t: nat)
    requires NoForeign(a, t) && NoForeign(b, t)
    ensures NoForeign(a + b, t)
  {
  }

  // ----- finishing calls

  function Rank(c: Call): nat {
    match c
    case NoCall => 0
    case Using(_, _, _, _) => 1
    case Refreshed(_, _, _) => 2
    case ReadGen(_, _, _, _) => 3
    case Entered(_, _, _) => 4
  }

  /** Only thread `u` has moved. */
  ghost predicate OnlyMoved(s: State, end: State, u: nat) {
    && end.mem == s.mem && end.models == s.models && end.generation == s.generation && |end.threads| == |s.threads|
    && forall v :: 0 <= v < |s.threads| && v != u ==> end.threads[v] == s.threads[v]
  }

  /** Let thread `u` finish its call. */
  lemma {:induction false} FinishCall(s: State, u: nat) returns (acts: seq<Action>, end: State)
    requires u < |s.threads|
    ensures Leads(s, acts, end) && OnlyMoved(s, end, u) && end.threads[u].call.NoCall?
    ensures forall t :: NoForeign(acts, t)
    decreases Rank(s.threads[u].call)
  {
    if s.threads[u].call.NoCall? {
      return [], s;
    }
    var rest;
    rest, end := FinishCall(Step(s, Advance(u)), u);
    acts := [Advance(u)] + rest;
    assert acts[1..] == rest;
    forall t ensures NoForeign(acts, t) {
      assert NoForeign(rest, t);
    }
  }

  /** Let every thread below `n` finish its call; an idle thread `t` is left as it was. */
  lemma {:induction false} FinishCalls(s: State, n: nat, t: nat) returns (acts: seq<Action>, end: State)
    requires n <= |s.threads| && t < |s.threads| && s.threads[t].call.NoCall?
    ensures Leads(s, acts, end) && NoForeign(acts, t)
    ensures end.mem == s.mem && end.models == s.models && end.generation == s.generation
    ensures |end.threads| == |s.threads| && end.threads[t] == s.threads[t]
    ensures forall u :: 0 <= u < n ==> end.threads[u].call.NoCall?
    decreases n
  {
    if n == 0 {
      return [], s;
    }
    var a, mid := FinishCalls(s, n - 1, t);
    if n - 1 == t {
      return a, mid;
    }
    var b;
    b, end := FinishCall(mid, n - 1);
    acts := a + b;
    LeadsOn(s, a, mid, b, end);
    NoForeignOn(a, b, t);
  }

  // ----- a pack that is found is used

  lemma {:induction false} FindIt(cache: seq<Entry>, e: Entry)
    requires Unique(cache) && e in cache
    ensures Find(cache, e.kind, e.key) == Some(e)
  {
    if cache[0] != e {
      assert e in cache[1..];
      FindIt(cache[1..], e);
      var i :| 0 < i < |cache| && cache[i] == e;
      assert cache[0].kind != cache[i].kind || cache[0].key != cache[i].key;
    }
  }

  /** The steps of one call up to the multiplication. */
  function OneCall(t: nat, kind: Kind, key: Key, owner: Option<nat>): seq<Action> {
    [Gemm(t, kind, key, owner), Advance(t), Advance(t), Advance(t)]
  }

  /** The packs a call will look among. */
  function Looked(s: State, k: Thread): seq<Entry> {
    if k.seen == s.generation then k.cache else []
  }

  /** What a call of an idle thread multiplies by, if nobody else moves. */
  function Given(s: State, k: Thread, kind: Kind, key: Key, owner: Option<nat>): seq<int> {
    Chosen(Packed(Looked(s, k), kind, key, owner, s.mem), kind, key, s.mem)
  }

  lemma CallRuns(s: State, t: nat, kind: Kind, key: Key, owner: Option<nat>) returns (end: State)
    requires t < |s.threads| && s.threads[t].call.NoCall? && CallableOn(s, key, owner)
    ensures Leads(s, OneCall(t, kind, key, owner), end) && OnlyMoved(s, end, t)
    ensures end.threads[t].call == Using(kind, key, owner, Given(s, s.threads[t], kind, key, owner))
  {
    var k := s.threads[t];
    var s1 := s.(threads := s.threads[t := k.(call := Entered(kind, key, owner))]);
    var s2 := s.(threads := s.threads[t := k.(call := ReadGen(kind, key, owner, s.generation))]);
    var s3 := s.(threads := s.threads[t := Thread(s.generation, Looked(s, k), Refreshed(kind, key, owner))]);
    assert Step(s, Gemm(t, kind, key, owner)) == s1;
    assert Step(s1, Advance(t)) == s2;
    assert Step(s2, Advance(t)) == s3;
    end := Step(s3, Advance(t));
    OneStep(s3, Advance(t));
    LeadsFirst(s2, Advance(t), [Advance(t)], end);
    LeadsFirst(s1, Advance(t), [Advance(t)] + [Advance(t)], end);
    LeadsFirst(s, Gemm(t, kind, key, owner), [Advance(t)] + ([Advance(t)] + [Advance(t)]), end);
    assert OneCall(t, kind, key, owner) ==
      [Gemm(t, kind, key, owner)] + ([Advance(t)] + ([Advance(t)] + [Advance(t)]));
  }

  /** An idle thread that has caught up makes a call and is given the pack it holds under
      that key. */
  lemma UsesItsPack(s: State, t: nat, e: Entry, owner: Option<nat>) returns (acts: seq<Action>, end: State)
    requires t < |s.threads| && s.threads[t].call.NoCall? && s.threads[t].seen == s.generation
    requires Unique(s.threads[t].cache) && e in s.threads[t].cache && CallableOn(s, e.key, owner)
    ensures acts == OneCall(t, e.kind, e.key, owner)
    ensures Leads(s, acts, end) && OnlyMoved(s, end, t) && end.threads[t].call == Using(e.kind, e.key, owner, e.pack)
  {
    FindIt(s.threads[t].cache, e);
    acts := OneCall(t, e.kind, e.key, owner);
    end := CallRuns(s, t, e.kind, e.key, owner);
  }

  // ----- the exact condition

  /** From here on, as long as thread `t` makes no foreign call, it multiplies by models'
      current weights. */
  ghost predicate KeepsCurrent(s: State, t: nat)
    requires t < |s.threads|
  {
    forall acts, end :: Leads(s, acts, end) && NoForeign(acts, t) ==> t < |end.threads| && Current(end, t)
  }

  lemma FreshId(ids: set<nat>) returns (id: nat)
    ensures id !in ids
    decreases ids
  {
    id := 0;
    var rest := ids;
    while rest != {}
      invariant rest <= ids
      invariant forall x :: x in ids ==> x in rest || x < id
    {
      var x :| x in rest;
      rest := rest - {x};
      if id <= x { id := x + 1; }
    }
  }

  /** A live model holds other words than the pack under a key it may be called on. */
  lemma OtherWords(s: State, t: nat, e: Entry, id: nat) returns (acts: seq<Action>, end: State)
    requires Inv(s) && t < |s.threads| && s.threads[t].call.NoCall? && s.threads[t].seen == s.generation
    requires e in s.threads[t].cache && CallableOn(s, e.key, Some(id)) && Slice(s.models[id], e.key) != e.pack
    ensures Leads(s, acts, end) && NoForeign(acts, t) && t < |end.threads| && !Current(end, t)
  {
    acts, end := UsesItsPack(s, t, e, Some(id));
    assert end.threads[t].call.operand == e.pack && end.models == s.models;
  }

  /** No model that is not freed holds memory of a pack that no live model keeps, once the
      thread has caught up. */
  lemma Unheld(s: State, t: nat, e: Entry)
    requires Inv(s) && t < |s.threads| && s.threads[t].seen == s.generation
    requires e in s.threads[t].cache && e.owner.None?
    requires forall id :: id in s.models && s.models[id].phase.Live? ==> !Meets(e.key, s.models[id])
    ensures forall x :: e.key.addr <= x < e.key.addr + Length(e.key) ==> !Owned(s, x)
  {
    assert ThreadOk(s, s.threads[t]) && EntryOk(s, s.threads[t], e);
    forall id | id in s.models && s.models[id].phase != Freed ensures !Meets(e.key, s.models[id]) {
      assert ModelOk(s, s.models[id]);
    }
    forall x, id | Within(x, e.key.addr, Length(e.key)) && id in s.models && s.models[id].phase != Freed
      ensures !Within(x, s.models[id].lo, |s.models[id].words|)
    {
      assert !Meets(e.key, s.models[id]);
    }
    forall x | e.key.addr <= x < e.key.addr + Length(e.key) ensures !Owned(s, x) {
      assert Within(x, e.key.addr, Length(e.key));
    }
  }

  /** A model may be loaded over a foreign pack's memory. */
  lemma LoadOver(s: State, t: nat, e: Entry) returns (acts: seq<Action>, end: State)
    requires Inv(s) && t < |s.threads| && s.threads[t].call.NoCall? && s.threads[t].seen == s.generation
    requires e in s.threads[t].cache && e.owner.None?
    requires forall id :: id in s.models && s.models[id].phase.Live? ==> !Meets(e.key, s.models[id])
    ensures Leads(s, acts, end) && NoForeign(acts, t) && t < |end.threads| && !Current(end, t)
  {
    Unheld(s, t, e);
    assert ThreadOk(s, s.threads[t]) && EntryOk(s, s.threads[t], e);
    var a, idle := FinishCalls(s, |s.threads|, t);
    var id := FreshId(s.models.Keys);
    var words := seq(|e.pack|, x requires 0 <= x < |e.pack| => e.pack[x] + 1);
    var load := Load(id, e.key.addr, words);
    assert forall x :: Owned(idle, x) <==> Owned(s, x);
    assert Enabled(idle, load);
    var loaded := Step(idle, load);
    OneStep(idle, load);
    LeadsOn(s, a, idle, [load], loaded);
    RunInv(s, a + [load], loaded);
    assert Slice(loaded.models[id], e.key)[0] == words[0] != e.pack[0];
    var b;
    b, end := OtherWords(loaded, t, e, id);
    acts := a + [load] + b;
    LeadsOn(s, a + [load], loaded, b, end);
    NoForeignOn(a, [load], t);
    NoForeignOn(a + [load], b, t);
  }

  lemma Mistrust(s: State, t: nat)
    requires Inv(s) && t < |s.threads| && s.threads[t].call.NoCall? && !Trusted(s, s.threads[t])
    ensures !KeepsCurrent(s, t)
  {
    var k := s.threads[t];
    assert ThreadOk(s, k);
    var e :| e in k.cache && e.owner.None? && !Kept(s, e);
    var acts, end;
    if id :| id in s.models && s.models[id].phase.Live? && Meets(e.key, s.models[id]) {
      assert !KeptBy(s.models[id], e);
      acts, end := OtherWords(s, t, e, id);
    } else {
      acts, end := LoadOver(s, t, e);
    }
  }

  /** Between two of its calls a thread may trust its cache, whatever follows short of a
      foreign call of its own, exactly when a model has been dropped since it last looked,
      or every pack it holds of memory outside the models is kept by a live model. */
  lemma CurrentExactlyWhen(mem: nat -> int, threads: nat, before: seq<Action>, s: State, t: nat)
    requires Leads(Initial(mem, threads), before, s) && t < |s.threads| && s.threads[t].call.NoCall?
    ensures KeepsCurrent(s, t) <==> Trusted(s, s.threads[t])
  {
    RunInv(Initial(mem, threads), before, s);
    assert ThreadOk(s, s.threads[t]);
    if Trusted(s, s.threads[t]) {
      forall acts, end | Leads(s, acts, end) && NoForeign(acts, t) ensures t < |end.threads| && Current(end, t) {
        CleanRun(s, acts, end, t);
      }
    } else {
      Mistrust(s, t);
    }
  }

  // ----- calls on any memory

  lemma {:induction false} SameEnd(s: State, acts: seq<Action>, end: State, end': State)
    requires Leads(s, acts, end) && Leads(s, acts, end')
    ensures end == end'
    decreases |acts|
  {
    if acts != [] { SameEnd(Step(s, acts[0]), acts[1..], end, end'); }
  }

  /** What the thread has packed of an operand is what memory holds there now. */
  ghost predicate PackRight(mem: nat -> int, cache: seq<Entry>, kind: Kind, key: Key) {
    forall e :: e in cache && e.kind == kind && e.key == key ==> e.pack == Read(mem, key.addr, Length(key))
  }

  /** A call, on a model or not, multiplies by what memory holds exactly when a model was
      dropped since the thread last looked, or what it has packed of that operand is still
      what memory holds. */
  lemma RightExactlyWhen(s: State, t: nat, kind: Kind, key: Key, owner: Option<nat>, end: State)
    requires Inv(s) && t < |s.threads| && s.threads[t].call.NoCall? && CallableOn(s, key, owner)
    requires Leads(s, OneCall(t, kind, key, owner), end)
    ensures t < |end.threads| && end.threads[t].call.Using? && end.mem == s.mem
    ensures end.threads[t].call.operand == Read(s.mem, key.addr, Length(key)) <==>
      s.threads[t].seen < s.generation || PackRight(s.mem, s.threads[t].cache, kind, key)
  {
    var k := s.threads[t];
    assert ThreadOk(s, k);
    var end' := CallRuns(s, t, kind, key, owner);
    SameEnd(s, OneCall(t, kind, key, owner), end, end');
    GivenIsRight(s, k, kind, key, owner);
    if k.seen == s.generation {
      forall e | e in k.cache && e.kind == kind && e.key == key ensures Find(k.cache, kind, key) == Some(e) {
        FindIt(k.cache, e);
      }
    }
  }

  lemma GivenIsRight(s: State, k: Thread, kind: Kind, key: Key, owner: Option<nat>)
    ensures var hit := Find(Looked(s, k), kind, key);
      Given(s, k, kind, key, owner) == if hit.Some? then hit.value.pack else Read(s.mem, key.addr, Length(key))
  {
    var cache := Looked(s, k);
    var cache' := Packed(cache, kind, key, owner, s.mem);
    if Find(cache, kind, key).None? {
      var hit := Find(cache', kind, key);
      assert hit.Some? ==> hit.value in cache' && hit.value !in cache;
    }
  }

  /** The packs that the call in progress would hit are right, and so is its operand. */
  ghost predicate CallRight(s: State, k: Thread) {
    !k.call.NoCall? ==>
      && ((k.call.ReadGen? && k.call.seenNow == k.seen) || k.call.Refreshed? ==>
            PackRight(s.mem, k.cache, k.call.kind, k.call.key))
      && (k.call.Using? ==> k.call.operand == Read(s.mem, k.call.key.addr, Length(k.call.key)))
  }

  /** The cache will be cleared before it is used again, or every pack of memory outside
      the models is what that memory holds. */
  ghost predicate ForeignRight(s: State, k: Thread) {
    k.seen < s.generation || forall e :: e in k.cache && e.owner.None? ==> PackHolds(s.mem, e)
  }

  ghost predicate PackHolds(mem: nat -> int, e: Entry) {
    e.pack == Read(mem, e.key.addr, Length(e.key))
  }

  ghost predicate Right(s: State, k: Thread) {
    CallRight(s, k) && ForeignRight(s, k)
  }

  /** The step changes no memory of which thread `t` has a pack that is not a model's, unless
      a model was dropped since the thread last looked. */
  ghost predicate Spares(s: State, a: Action, t: nat)
    requires t < |s.threads|
  {
    s.threads[t].seen < s.generation ||
      forall e :: e in s.threads[t].cache && e.owner.None? && PackHolds(s.mem, e) ==> PackHolds(Step(s, a).mem, e)
  }

  /** Every step of the run spares thread `t`. */
  ghost predicate AllSpare(s: State, acts: seq<Action>, t: nat)
    decreases |acts|
  {
    acts == [] || (t < |s.threads| && Spares(s, acts[0], t) && AllSpare(Step(s, acts[0]), acts[1..], t))
  }

  /** A caught-up thread's packs of models are what memory holds. */
  lemma ModelPackHolds(s: State, k: Thread, e: Entry)
    requires MemoryOk(s) && ThreadOk(s, k) && k.seen == s.generation && e in k.cache && e.owner.Some?
    ensures PackHolds(s.mem, e)
  {
    assert EntryOk(s, k, e) && ModelOk(s, s.models[e.owner.value]);
    ReadSlice(s, e.owner.value, e.key);
  }

  lemma CallStaysRight(s: State, k: Thread)
    requires MemoryOk(s) && ThreadOk(s, k) && Right(s, k) && !k.call.NoCall?
    ensures Right(s, GemmStep(s, k))
  {
    match k.call
    case Entered(kind, key, _) =>
      if k.seen == s.generation {
        forall e | e in k.cache && e.kind == kind && e.key == key ensures PackHolds(s.mem, e) {
          if e.owner.Some? { ModelPackHolds(s, k, e); }
        }
      }
    case Refreshed(kind, key, owner) =>
      var k' := k.(seen := s.generation);
      GivenIsRight(s, k', kind, key, owner);
      assert Looked(s, k') == k.cache;
    case _ =>
  }

  /** The memory of an operand in use does not change. */
  lemma OperandStays(s: State, a: Action, t: nat)
    requires Inv(s) && Enabled(s, a) && t < |s.threads| && !s.threads[t].call.NoCall?
    ensures var key := s.threads[t].call.key;
      Read(Step(s, a).mem, key.addr, Length(key)) == Read(s.mem, key.addr, Length(key))
  {
    var c, s' := s.threads[t].call, Step(s, a);
    assert ThreadOk(s, s.threads[t]);
    if c.owner.Some? {
      StepInv(s, a);
      ReadSlice(s, c.owner.value, c.key);
      if a.DropBegin? { assert !InCall(c, a.id); }
      ReadSlice(s', c.owner.value, c.key);
    } else {
      forall x: nat | Within(x, c.key.addr, Length(c.key)) ensures s'.mem(x) == s.mem(x) {
        assert Borrowed(s, x);
      }
    }
  }

  lemma StaysRight(s: State, a: Action, t: nat)
    requires Inv(s) && Enabled(s, a) && t < |s.threads| && Right(s, s.threads[t]) && Spares(s, a, t)
    ensures t < |Step(s, a).threads| && Right(Step(s, a), Step(s, a).threads[t])
  {
    var k := s.threads[t];
    assert ThreadOk(s, k);
    if a == Advance(t) {
      CallStaysRight(s, k);
    } else if !k.call.NoCall? {
      OperandStays(s, a, t);
    }
  }

  lemma {:induction false} RightRun(s: State, acts: seq<Action>, end: State, t: nat)
    requires Inv(s) && Leads(s, acts, end) && AllSpare(s, acts, t) && t < |s.threads| && Right(s, s.threads[t])
    ensures t < |end.threads| && Right(end, end.threads[t])
    decreases |acts|
  {
    if acts != [] {
      StaysRight(s, acts[0], t);
      StepInv(s, acts[0]);
      RightRun(Step(s, acts[0]), acts[1..], end, t);
    }
  }

  /** Over every interleaving in which nothing changes a buffer between a thread's packing
      it and the next drop of a model, every GEMM of that thread, on models and on other
      memory, multiplies by what memory holds. */
  lemma GemmUsesCurrentMemory(mem: nat -> int, threads: nat, acts: seq<Action>, end: State, t: nat)
    requires Leads(Initial(mem, threads), acts, end) && t < threads && AllSpare(Initial(mem, threads), acts, t)
    ensures t < |end.threads|
    ensures var c := end.threads[t].call; c.Using? ==> c.operand == Read(end.mem, c.key.addr, Length(c.key))
  {
    RightRun(Initial(mem, threads), acts, end, t);
  }

  // ----- two runs that go wrong

  function Threads(cache: seq<Entry>, call: Call): seq<Thread> {
    [Thread(0, cache, call)]
  }

  /** A single thread makes a foreign call; the pack of it stays. */
  lemma ForeignPackStays(mem: nat -> int, kind: Kind, key: Key)
    requires Sized(key)
    ensures Leads(Initial(mem, 1), [Gemm(0, kind, key, None), Advance(0), Advance(0), Advance(0), Advance(0)],
      Initial(mem, 1).(threads := Threads([Entry(kind, key, Read(mem, key.addr, Length(key)), None)], NoCall)))
  {
    var s, pack := Initial(mem, 1), Read(mem, key.addr, Length(key));
    var e := Entry(kind, key, pack, None);
    var s1 := s.(threads := Threads([], Entered(kind, key, None)));
    var s2 := s.(threads := Threads([], ReadGen(kind, key, None, 0)));
    var s3 := s.(threads := Threads([], Refreshed(kind, key, None)));
    var s4 := s.(threads := Threads([e], Using(kind, key, None, pack)));
    var s5 := s.(threads := Threads([e], NoCall));
    assert Step(s, Gemm(0, kind, key, None)) == s1;
    assert Step(s1, Advance(0)) == s2;
    assert Step(s2, Advance(0)) == s3;
    assert [] + [e] == [e] && Find([e], kind, key) == Some(e);
    assert Step(s3, Advance(0)) == s4;
    assert Step(s4, Advance(0)) == s5;
    OneStep(s4, Advance(0));
    LeadsFirst(s3, Advance(0), [Advance(0)], s5);
    LeadsFirst(s2, Advance(0), [Advance(0), Advance(0)], s5);
    LeadsFirst(s1, Advance(0), [Advance(0), Advance(0), Advance(0)], s5);
    LeadsFirst(s, Gemm(0, kind, key, None), [Advance(0), Advance(0), Advance(0), Advance(0)], s5);
  }

  /** The public GEMM is called on a temporary, the temporary is freed, a model is loaded
      where it lay, and the same thread multiplies by that model's weights: it multiplies
      by the temporary's contents. */
  lemma ForeignPackIsServed(mem: nat -> int, kind: Kind, key: Key, words: seq<int>) returns (end: State)
    requires Sized(key) && |words| == Length(key) && words != Read(mem, key.addr, Length(key))
    ensures Leads(Initial(mem, 1),
      [Gemm(0, kind, key, None), Advance(0), Advance(0), Advance(0), Advance(0), Load(7, key.addr, words)] +
      [Gemm(0, kind, key, Some(7)), Advance(0), Advance(0), Advance(0)], end)
    ensures |end.threads| == 1 && end.threads[0].call == Using(kind, key, Some(7), Read(mem, key.addr, Length(key)))
    ensures Read(end.mem, key.addr, Length(key)) == words && !Current(end, 0)
  {
    var e := Entry(kind, key, Read(mem, key.addr, Length(key)), None);
    var s := Initial(mem, 1).(threads := Threads([e], NoCall));
    var first, load := [Gemm(0, kind, key, None), Advance(0), Advance(0), Advance(0), Advance(0)],
      Load(7, key.addr, words);
    ForeignPackStays(mem, kind, key);
    var loaded := Step(s, load);
    OneStep(s, load);
    LeadsOn(Initial(mem, 1), first, s, [load], loaded);
    var acts;
    acts, end := UsesItsPack(loaded, 0, e, Some(7));
    LeadsOn(Initial(mem, 1), first + [load], loaded, acts, end);
    assert first + [load] == [Gemm(0, kind, key, None), Advance(0), Advance(0), Advance(0), Advance(0), load];
    assert Read(end.mem, key.addr, Length(key)) == words;
  }

  /** A buffer outside the models that is refilled between two calls is multiplied in its
      old contents. */
  lemma RefilledBufferIsStale(mem: nat -> int, kind: Kind, key: Key, word: int) returns (end: State)
    requires Sized(key) && word != mem(key.addr)
    ensures Leads(Initial(mem, 1),
      [Gemm(0, kind, key, None), Advance(0), Advance(0), Advance(0), Advance(0), Scribble(key.addr, word)] +
      [Gemm(0, kind, key, None), Advance(0), Advance(0), Advance(0)], end)
    ensures |end.threads| == 1 && end.threads[0].call == Using(kind, key, None, Read(mem, key.addr, Length(key)))
    ensures Read(end.mem, key.addr, Length(key))[0] == word != Read(mem, key.addr, Length(key))[0]
  {
    var e := Entry(kind, key, Read(mem, key.addr, Length(key)), None);
    var s := Initial(mem, 1).(threads := Threads([e], NoCall));
    var first, fill := [Gemm(0, kind, key, None), Advance(0), Advance(0), Advance(0), Advance(0)],
      Scribble(key.addr, word);
    ForeignPackStays(mem, kind, key);
    var filled := Step(s, fill);
    OneStep(s, fill);
    LeadsOn(Initial(mem, 1), first, s, [fill], filled);
    var acts;
    acts, end := UsesItsPack(filled, 0, e, None);
    LeadsOn(Initial(mem, 1), first + [fill], filled, acts, end);
    assert first + [fill] == [Gemm(0, kind, key, None), Advance(0), Advance(0), Advance(0), Advance(0), fill];
  }
}

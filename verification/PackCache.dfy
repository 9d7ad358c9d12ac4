/** Packed matrices, cached per thread under their address and dimensions, and
    invalidated by a global generation that every model drop raises. A transition
    system over loads, drops and GEMM calls on any threads, on the weights of live
    models and on memory that no model holds. */
module PackCache {
  import opened Wrappers

  /** Which of the three caches: F32 left operand, F32 right operand, INT8 right operand. */
  datatype Kind = F32A | F32B | I8B

  const PACK_CAP := 32

  datatype Key = Key(addr: nat, d: nat, k: nat)

  /** A packed copy of the matrix under `key`; `owner` is the model it was read from, if
      it was a model's. */
  datatype Entry = Entry(kind: Kind, key: Key, pack: seq<int>, owner: Option<nat>)

  datatype Phase = Live | Dying | Freed

  /** A model's weights: where they lie, what they are, the generation at load and,
      once dropping, the generation its drop raised. */
  datatype Info = Info(lo: nat, words: seq<int>, phase: Phase, birth: nat, dropGen: nat)

  /** One GEMM call: idle, or at a step with its packed operand, which is a model's or
      foreign. */
  datatype Call =
    | NoCall
    | Entered(kind: Kind, key: Key, owner: Option<nat>)
    | ReadGen(kind: Kind, key: Key, owner: Option<nat>, seenNow: nat)
    | Refreshed(kind: Kind, key: Key, owner: Option<nat>)
    | Using(kind: Kind, key: Key, owner: Option<nat>, operand: seq<int>)

  datatype Thread = Thread(seen: nat, cache: seq<Entry>, call: Call)

  datatype State = State(mem: nat -> int, models: map<nat, Info>, generation: nat, threads: seq<Thread>)

  datatype Action =
    | Load(id: nat, lo: nat, words: seq<int>)
    | Scribble(addr: nat, word: int)
    | DropBegin(id: nat)
    | DropEnd(id: nat)
    | Gemm(t: nat, kind: Kind, key: Key, owner: Option<nat>)
    | Advance(t: nat)

  function Length(key: Key): nat {
    key.d * key.k
  }

  predicate Sized(key: Key) {
    key.d > 0 && key.k > 0 && Length(key) > 0
  }

  /** Allocated to a model that is not freed yet. */
  predicate Owned(s: State, addr: nat) {
    exists id :: id in s.models && s.models[id].phase != Freed && Within(addr, s.models[id].lo, |s.models[id].words|)
  }

  predicate Within(addr: nat, lo: nat, len: nat) {
    lo <= addr < lo + len
  }

  predicate ForeignCall(c: Call) {
    !c.NoCall? && c.owner.None?
  }

  /** Borrowed by a call on memory outside the models. */
  predicate Borrowed(s: State, addr: nat) {
    exists t :: 0 <= t < |s.threads| && ForeignCall(s.threads[t].call)
      && Within(addr, s.threads[t].call.key.addr, Length(s.threads[t].call.key))
  }

  /** The operand is not empty and lies inside the model's weights. */
  predicate Operand(i: Info, key: Key) {
    Sized(key) && i.lo <= key.addr && key.addr + Length(key) <= i.lo + |i.words|
  }

  predicate InCall(c: Call, id: nat) {
    !c.NoCall? && c.owner == Some(id)
  }

  ghost predicate Enabled(s: State, a: Action) {
    match a
    case Load(id, lo, words) =>
      id !in s.models && forall x :: lo <= x < lo + |words| ==> !Owned(s, x) && !Borrowed(s, x)
    case Scribble(addr, _) => !Owned(s, addr) && !Borrowed(s, addr)
    case DropBegin(id) =>
      id in s.models && s.models[id].phase.Live? && forall t :: 0 <= t < |s.threads| ==> !InCall(s.threads[t].call, id)
    case DropEnd(id) => id in s.models && s.models[id].phase.Dying?
    case Gemm(t, _, key, owner) => t < |s.threads| && s.threads[t].call.NoCall? && CallableOn(s, key, owner)
    case Advance(t) => t < |s.threads| && !s.threads[t].call.NoCall?
  }

  /** The operand of a call: in a live model, or in memory that no model holds. */
  ghost predicate CallableOn(s: State, key: Key, owner: Option<nat>) {
    match owner
    case Some(id) => id in s.models && s.models[id].phase.Live? && Operand(s.models[id], key)
    case None => Sized(key) && forall x :: key.addr <= x < key.addr + Length(key) ==> !Owned(s, x)
  }

  function Read(mem: nat -> int, addr: nat, len: nat): (r: seq<int>)
    ensures |r| == len
  {
    seq(len, i requires 0 <= i < len => mem(addr + i))
  }

  function Find(cache: seq<Entry>, kind: Kind, key: Key): (r: Option<Entry>)
    ensures r.Some? ==> r.value in cache && r.value.kind == kind && r.value.key == key
    ensures r.None? ==> forall e :: e in cache ==> e.kind != kind || e.key != key
  {
    if cache == [] then None
    else if cache[0].kind == kind && cache[0].key == key then Some(cache[0])
    else Find(cache[1..], kind, key)
  }

  function CountKind(cache: seq<Entry>, kind: Kind): nat {
    if cache == [] then 0 else (if cache[0].kind == kind then 1 else 0) + CountKind(cache[1..], kind)
  }

  /** Pack the operand if it is not cached and there is room. */
  function Packed(cache: seq<Entry>, kind: Kind, key: Key, owner: Option<nat>, mem: nat -> int): seq<Entry> {
    if Find(cache, kind, key).None? && CountKind(cache, kind) < PACK_CAP
    then cache + [Entry(kind, key, Read(mem, key.addr, Length(key)), owner)]
    else cache
  }

  /** The operand the multiplication works on: the pack when there is one, else memory. */
  function Chosen(cache: seq<Entry>, kind: Kind, key: Key, mem: nat -> int): seq<int> {
    var hit := Find(cache, kind, key);
    if hit.Some? then hit.value.pack else Read(mem, key.addr, Length(key))
  }

  function GemmStep(s: State, k: Thread): Thread {
    match k.call
    case NoCall => k
    case Entered(kind, key, owner) => k.(call := ReadGen(kind, key, owner, s.generation))
    case ReadGen(kind, key, owner, g) =>
      if k.seen != g then Thread(g, [], Refreshed(kind, key, owner)) else k.(call := Refreshed(kind, key, owner))
    case Refreshed(kind, key, owner) =>
      var cache := Packed(k.cache, kind, key, owner, s.mem);
      k.(cache := cache, call := Using(kind, key, owner, Chosen(cache, kind, key, s.mem)))
    case Using(_, _, _, _) => k.(call := NoCall)
  }

  function Write(mem: nat -> int, lo: nat, words: seq<int>): nat -> int {
    (x: nat) => if lo <= x < lo + |words| then words[x - lo] else mem(x)
  }

  function Step(s: State, a: Action): State {
    match a
    case Load(id, lo, words) =>
      s.(mem := Write(s.mem, lo, words), models := s.models[id := Info(lo, words, Live, s.generation, 0)])
    case Scribble(addr, word) => s.(mem := Write(s.mem, addr, [word]))
    case DropBegin(id) =>
      if id !in s.models then s
      else s.(generation := s.generation + 1,
              models := s.models[id := s.models[id].(phase := Dying, dropGen := s.generation + 1)])
    case DropEnd(id) => if id !in s.models then s else s.(models := s.models[id := s.models[id].(phase := Freed)])
    case Gemm(t, kind, key, owner) =>
      if t >= |s.threads| then s else s.(threads := s.threads[t := s.threads[t].(call := Entered(kind, key, owner))])
    case Advance(t) => if t >= |s.threads| then s else s.(threads := s.threads[t := GemmStep(s, s.threads[t])])
  }

  function Initial(mem: nat -> int, threads: nat): State {
    State(mem, map[], 0, seq(threads, _ => Thread(0, [], NoCall)))
  }

  // ----- the invariant

  function Slice(i: Info, key: Key): seq<int>
    requires Operand(i, key)
  {
    i.words[key.addr - i.lo..key.addr - i.lo + Length(key)]
  }

  predicate Overlap(i: Info, j: Info) {
    i.lo < j.lo + |j.words| && j.lo < i.lo + |i.words| && |i.words| > 0 && |j.words| > 0
  }

  /** The operand and the model share an address. */
  predicate Meets(key: Key, i: Info) {
    key.addr < i.lo + |i.words| && i.lo < key.addr + Length(key) && Length(key) > 0 && |i.words| > 0
  }

  /** Models that are not freed hold their own words; whoever sits on an address
      that another model had was loaded after that model's drop. */
  ghost predicate MemoryOk(s: State) {
    && (forall id :: id in s.models ==> ModelOk(s, s.models[id]))
    && (forall i, j :: i in s.models && j in s.models && i != j ==> After(s.models[i], s.models[j]))
  }

  ghost predicate ModelOk(s: State, i: Info) {
    && i.birth <= s.generation && i.dropGen <= s.generation
    && (i.phase != Freed ==> Holds(s.mem, i))
  }

  ghost predicate Holds(mem: nat -> int, i: Info) {
    forall x: nat :: i.lo <= x < i.lo + |i.words| ==> mem(x) == i.words[x - i.lo]
  }

  /** If `j` still has memory that `i` had, then `i` is gone and `j` is younger than its drop. */
  predicate After(i: Info, j: Info) {
    j.phase != Freed && Overlap(i, j) ==> i.phase.Freed? && i.dropGen <= j.birth
  }

  /** A model's entry was packed from its words, and if the model has been dropped since,
      the thread has not caught up with that drop. A foreign entry meets a dying model
      only if the thread has not caught up with that drop. */
  ghost predicate EntryOk(s: State, k: Thread, e: Entry) {
    && Sized(e.key) && |e.pack| == Length(e.key)
    && match e.owner
       case Some(id) =>
         && id in s.models && Operand(s.models[id], e.key) && e.pack == Slice(s.models[id], e.key)
         && (!s.models[id].phase.Live? ==> k.seen < s.models[id].dropGen)
       case None =>
         forall id :: id in s.models && s.models[id].phase.Dying? && Meets(e.key, s.models[id]) ==>
           k.seen < s.models[id].dropGen
  }

  /** A call on a model has a live model, and once refreshed the thread knows a generation
      no older than it. A foreign call meets no model that is not freed. */
  ghost predicate CallOk(s: State, k: Thread) {
    !k.call.NoCall? ==>
      && Sized(k.call.key)
      && (k.call.ReadGen? ==> k.call.seenNow <= s.generation)
      && match k.call.owner
         case Some(id) =>
           && id in s.models && s.models[id].phase.Live? && Operand(s.models[id], k.call.key)
           && (k.call.ReadGen? ==> s.models[id].birth <= k.call.seenNow)
           && (k.call.Refreshed? || k.call.Using? ==> s.models[id].birth <= k.seen)
         case None => forall id :: id in s.models && s.models[id].phase != Freed ==> !Meets(k.call.key, s.models[id])
  }

  /** No two entries of a kind share a key. */
  ghost predicate Unique(cache: seq<Entry>) {
    forall i, j :: 0 <= i < j < |cache| ==> cache[i].kind != cache[j].kind || cache[i].key != cache[j].key
  }

  ghost predicate ThreadOk(s: State, k: Thread) {
    && k.seen <= s.generation && CallOk(s, k) && Unique(k.cache)
    && forall e :: e in k.cache ==> EntryOk(s, k, e)
  }

  ghost predicate Inv(s: State) {
    MemoryOk(s) && forall t :: 0 <= t < |s.threads| ==> ThreadOk(s, s.threads[t])
  }

  // ----- reading memory

  /** A model that is not freed is read back as loaded. */
  lemma ReadSlice(s: State, id: nat, key: Key)
    requires MemoryOk(s) && id in s.models && s.models[id].phase != Freed && Operand(s.models[id], key)
    ensures Read(s.mem, key.addr, Length(key)) == Slice(s.models[id], key)
  {
    var i := s.models[id];
    assert ModelOk(s, i);
    forall x | 0 <= x < Length(key) ensures Read(s.mem, key.addr, Length(key))[x] == Slice(i, key)[x] {
      assert s.mem(key.addr + x) == i.words[key.addr + x - i.lo];
    }
  }

  /** A model's entry that a refreshed call on a model finds under its key comes from the
      call's own model. */
  lemma HitIsCurrent(s: State, k: Thread, e: Entry)
    requires MemoryOk(s) && ThreadOk(s, k) && k.call.Refreshed? && k.call.owner.Some?
    requires e in k.cache && e.key == k.call.key && e.owner.Some?
    ensures e.pack == Slice(s.models[k.call.owner.value], e.key)
  {
    assert EntryOk(s, k, e);
    var i, j := s.models[e.owner.value], s.models[k.call.owner.value];
    if e.owner != k.call.owner {
      assert Overlap(i, j) && After(i, j);
    }
  }

  lemma UseKeepsThread(s: State, k: Thread)
    requires MemoryOk(s) && ThreadOk(s, k) && k.call.Refreshed?
    ensures ThreadOk(s, GemmStep(s, k))
  {
    var k' := GemmStep(s, k);
    if k.call.owner.Some? { ReadSlice(s, k.call.owner.value, k.call.key); }
    forall e | e in k'.cache ensures EntryOk(s, k', e) {
      assert e in k.cache ==> EntryOk(s, k, e);
    }
    forall i, j | 0 <= i < j < |k'.cache|
      ensures k'.cache[i].kind != k'.cache[j].kind || k'.cache[i].key != k'.cache[j].key
    {
      assert k'.cache[i] in k.cache;
    }
  }

  lemma StepKeepsThread(s: State, k: Thread)
    requires MemoryOk(s) && ThreadOk(s, k)
    ensures ThreadOk(s, GemmStep(s, k))
  {
    if k.call.Refreshed? {
      UseKeepsThread(s, k);
    } else {
      if k.call.Entered? && k.call.owner.Some? {
        assert ModelOk(s, s.models[k.call.owner.value]);
      }
      forall e | e in GemmStep(s, k).cache ensures EntryOk(s, GemmStep(s, k), e) {
        assert EntryOk(s, k, e);
      }
    }
  }

  // ----- steps of the rest of the program

  /** New words on memory that no model holds disturb no model. */
  lemma WriteKeeps(s: State, lo: nat, words: seq<int>, i: Info)
    requires i in s.models.Values && i.phase != Freed && Holds(s.mem, i)
    requires forall x :: lo <= x < lo + |words| ==> !Owned(s, x)
    ensures Holds(Write(s.mem, lo, words), i)
  {
    var id :| id in s.models && s.models[id] == i;
    forall x: nat | i.lo <= x < i.lo + |i.words| ensures Write(s.mem, lo, words)(x) == i.words[x - i.lo] {
      assert Within(x, i.lo, |i.words|) && Owned(s, x);
      assert s.mem(x) == i.words[x - i.lo];
    }
  }

  /** Space taken for a model overlaps only freed ones. */
  lemma FreshSpace(s: State, lo: nat, words: seq<int>, id: nat)
    requires id in s.models && s.models[id].phase != Freed
    requires forall x :: lo <= x < lo + |words| ==> !Owned(s, x)
    ensures var i := Info(lo, words, Live, s.generation, 0);
      !Overlap(s.models[id], i) && !Overlap(i, s.models[id])
  {
    var i := s.models[id];
    var x := if i.lo > lo then i.lo else lo;
    if Within(x, i.lo, |i.words|) && lo <= x < lo + |words| {
      assert Owned(s, x);
    }
  }

  lemma LoadMemory(s: State, id: nat, lo: nat, words: seq<int>)
    requires MemoryOk(s) && Enabled(s, Load(id, lo, words))
    ensures MemoryOk(Step(s, Load(id, lo, words)))
  {
    var s' := Step(s, Load(id, lo, words));
    forall m | m in s'.models ensures ModelOk(s', s'.models[m]) {
      if m != id {
        assert ModelOk(s, s.models[m]);
        if s.models[m].phase != Freed { WriteKeeps(s, lo, words, s.models[m]); }
      }
    }
    forall i, j | i in s'.models && j in s'.models && i != j ensures After(s'.models[i], s'.models[j]) {
      if i == id || j == id {
        var other := if i == id then j else i;
        assert ModelOk(s, s.models[other]);
        if s.models[other].phase != Freed { FreshSpace(s, lo, words, other); }
      } else {
        assert After(s.models[i], s.models[j]);
      }
    }
  }

  lemma ScribbleMemory(s: State, addr: nat, word: int)
    requires MemoryOk(s) && Enabled(s, Scribble(addr, word))
    ensures MemoryOk(Step(s, Scribble(addr, word)))
  {
    var s' := Step(s, Scribble(addr, word));
    forall m | m in s'.models ensures ModelOk(s', s'.models[m]) {
      assert ModelOk(s, s.models[m]);
      if s.models[m].phase != Freed { WriteKeeps(s, addr, [word], s.models[m]); }
    }
  }

  lemma DropMemory(s: State, a: Action)
    requires MemoryOk(s) && Enabled(s, a) && (a.DropBegin? || a.DropEnd?)
    ensures MemoryOk(Step(s, a))
  {
    var s' := Step(s, a);
    forall m | m in s'.models ensures ModelOk(s', s'.models[m]) {
      assert ModelOk(s, s.models[m]);
    }
    forall i, j | i in s'.models && j in s'.models && i != j ensures After(s'.models[i], s'.models[j]) {
      assert After(s.models[i], s.models[j]);
    }
  }

  /** What a step makes of a model. */
  function Aged(s: State, a: Action, id: nat): Info
    requires id in s.models
  {
    if a == DropBegin(id) then s.models[id].(phase := Dying, dropGen := s.generation + 1)
    else if a == DropEnd(id) then s.models[id].(phase := Freed)
    else s.models[id]
  }

  /** A model's words never change, its phase goes from live to dying to freed and never
      back, and its drop carries the generation it raised. */
  lemma ModelsOnlyAge(s: State, a: Action, id: nat)
    requires Enabled(s, a) && id in s.models
    ensures id in Step(s, a).models && Step(s, a).models[id] == Aged(s, a, id)
    ensures Step(s, a).generation == s.generation + (if a.DropBegin? then 1 else 0)
    ensures a == DropBegin(id) ==> s.models[id].phase.Live?
    ensures a == DropEnd(id) ==> s.models[id].phase.Dying?
  {
  }

  /** A new model does not meet a foreign operand that is in use. */
  lemma LoadAvoids(s: State, id: nat, lo: nat, words: seq<int>, t: nat)
    requires Enabled(s, Load(id, lo, words)) && t < |s.threads| && ForeignCall(s.threads[t].call)
    ensures !Meets(s.threads[t].call.key, Info(lo, words, Live, s.generation, 0))
  {
    var key := s.threads[t].call.key;
    if Meets(key, Info(lo, words, Live, s.generation, 0)) {
      var x := if key.addr > lo then key.addr else lo;
      assert Within(x, key.addr, Length(key)) && Borrowed(s, x);
    }
  }

  /** Memory steps and drops keep every thread's part of the invariant. */
  lemma OthersKeepThread(s: State, a: Action, t: nat)
    requires MemoryOk(s) && t < |s.threads| && ThreadOk(s, s.threads[t])
    requires Enabled(s, a) && !a.Gemm? && !a.Advance?
    ensures ThreadOk(Step(s, a), s.threads[t])
  {
    var s', k := Step(s, a), s.threads[t];
    OthersKeepCall(s, a, t);
    forall e | e in k.cache ensures EntryOk(s', k, e) {
      assert EntryOk(s, k, e);
      if e.owner.Some? { ModelsOnlyAge(s, a, e.owner.value); }
    }
  }

  lemma OthersKeepCall(s: State, a: Action, t: nat)
    requires MemoryOk(s) && t < |s.threads| && ThreadOk(s, s.threads[t])
    requires Enabled(s, a) && !a.Gemm? && !a.Advance?
    ensures CallOk(Step(s, a), s.threads[t])
  {
    var s', k := Step(s, a), s.threads[t];
    if ForeignCall(k.call) {
      if a.Load? { LoadAvoids(s, a.id, a.lo, a.words, t); }
    } else if !k.call.NoCall? {
      ModelsOnlyAge(s, a, k.call.owner.value);
      assert a.DropBegin? ==> !InCall(k.call, a.id);
    }
  }

  /** A call that begins is in order. */
  lemma CallBegins(s: State, t: nat, kind: Kind, key: Key, owner: Option<nat>)
    requires Inv(s) && Enabled(s, Gemm(t, kind, key, owner))
    ensures ThreadOk(s, s.threads[t].(call := Entered(kind, key, owner)))
  {
    var k := s.threads[t];
    var k' := k.(call := Entered(kind, key, owner));
    forall e | e in k'.cache ensures EntryOk(s, k', e) {
      assert EntryOk(s, k, e);
    }
    if owner.None? {
      forall id | id in s.models && s.models[id].phase != Freed ensures !Meets(key, s.models[id]) {
        var i := s.models[id];
        var x := if key.addr > i.lo then key.addr else i.lo;
        if Meets(key, i) { assert Within(x, i.lo, |i.words|) && Owned(s, x); }
      }
    }
  }

  /** Every step keeps the invariant. */
  lemma StepInv(s: State, a: Action)
    requires Inv(s) && Enabled(s, a)
    ensures Inv(Step(s, a))
  {
    var s' := Step(s, a);
    match a
    case Gemm(t, kind, key, owner) =>
      CallBegins(s, t, kind, key, owner);
      forall u | 0 <= u < |s'.threads| ensures ThreadOk(s', s'.threads[u]) { SameWorld(s, s', s'.threads[u]); }
      SameWorld(s, s', s.threads[t]);
    case Advance(t) =>
      StepKeepsThread(s, s.threads[t]);
      forall u | 0 <= u < |s'.threads| ensures ThreadOk(s', s'.threads[u]) { SameWorld(s, s', s'.threads[u]); }
      SameWorld(s, s', s.threads[t]);
    case Load(id, lo, words) =>
      LoadMemory(s, id, lo, words);
      forall u | 0 <= u < |s'.threads| ensures ThreadOk(s', s'.threads[u]) { OthersKeepThread(s, a, u); }
    case Scribble(addr, word) =>
      ScribbleMemory(s, addr, word);
      forall u | 0 <= u < |s'.threads| ensures ThreadOk(s', s'.threads[u]) { OthersKeepThread(s, a, u); }
    case DropBegin(id) =>
      DropMemory(s, a);
      forall u | 0 <= u < |s'.threads| ensures ThreadOk(s', s'.threads[u]) { OthersKeepThread(s, a, u); }
    case DropEnd(id) =>
      DropMemory(s, a);
      forall u | 0 <= u < |s'.threads| ensures ThreadOk(s', s'.threads[u]) { OthersKeepThread(s, a, u); }
  }

  /** What is right for a thread depends only on memory, models and generation. */
  lemma SameWorld(s: State, s': State, k: Thread)
    requires s'.mem == s.mem && s'.models == s.models && s'.generation == s.generation
    ensures ThreadOk(s, k) <==> ThreadOk(s', k)
    ensures MemoryOk(s) <==> MemoryOk(s')
  {
    assert forall e :: e in k.cache ==> (EntryOk(s, k, e) <==> EntryOk(s', k, e));
    assert forall id :: id in s.models ==> (ModelOk(s, s.models[id]) <==> ModelOk(s', s.models[id]));
  }

  // ----- runs

  ghost predicate Leads(s: State, acts: seq<Action>, end: State)
    decreases |acts|
  {
    if acts == [] then end == s else Enabled(s, acts[0]) && Leads(Step(s, acts[0]), acts[1..], end)
  }

  lemma {:induction false} RunInv(s: State, acts: seq<Action>, end: State)
    requires Inv(s) && Leads(s, acts, end)
    ensures Inv(end)
    decreases |acts|
  {
    if acts != [] {
      StepInv(s, acts[0]);
      RunInv(Step(s, acts[0]), acts[1..], end);
    }
  }

  // ----- threads that may trust their cache

  /** The model that now meets a foreign entry's memory either cannot be called on under
      its key, or holds just what was packed. */
  ghost predicate KeptBy(i: Info, e: Entry) {
    i.phase.Live? && Meets(e.key, i) && (Operand(i, e.key) ==> Slice(i, e.key) == e.pack)
  }

  ghost predicate Kept(s: State, e: Entry) {
    exists id :: id in s.models && KeptBy(s.models[id], e)
  }

  /** The cache will be cleared before it is used again, or every foreign pack in it is
      kept by a live model. */
  ghost predicate Trusted(s: State, k: Thread) {
    k.seen < s.generation || forall e :: e in k.cache && e.owner.None? ==> Kept(s, e)
  }

  /** The foreign packs that the call in progress would hit are right. */
  ghost predicate HitsOk(i: Info, k: Thread)
    requires !k.call.NoCall? && Operand(i, k.call.key)
  {
    forall e :: e in k.cache && e.owner.None? && e.kind == k.call.kind && e.key == k.call.key ==>
      e.pack == Slice(i, k.call.key)
  }

  ghost predicate Clean(s: State, k: Thread)
    requires CallOk(s, k)
  {
    && Trusted(s, k) && !ForeignCall(k.call)
    && (!k.call.NoCall? ==>
          var i := s.models[k.call.owner.value];
          && ((k.call.ReadGen? && k.call.seenNow == k.seen) || k.call.Refreshed? ==> HitsOk(i, k))
          && (k.call.Using? ==> k.call.operand == Slice(i, k.call.key)))
  }

  /** A model that meets a live call's operand is the call's own. */
  lemma KeptHit(s: State, id: nat, e: Entry)
    requires MemoryOk(s) && id in s.models && s.models[id].phase.Live? && Operand(s.models[id], e.key) && Kept(s, e)
    ensures e.pack == Slice(s.models[id], e.key)
  {
    var j :| j in s.models && KeptBy(s.models[j], e);
    assert Overlap(s.models[j], s.models[id]);
    assert j != id ==> After(s.models[j], s.models[id]);
  }

  lemma CallStaysClean(s: State, k: Thread)
    requires MemoryOk(s) && ThreadOk(s, k) && Clean(s, k) && !k.call.NoCall?
    ensures ThreadOk(s, GemmStep(s, k)) && Clean(s, GemmStep(s, k))
  {
    var id, k' := k.call.owner.value, GemmStep(s, k);
    StepKeepsThread(s, k);
    match k.call
    case Entered(_, _, _) =>
      if k.seen == s.generation {
        forall e | e in k.cache && e.owner.None? && e.key == k.call.key ensures e.pack == Slice(s.models[id], e.key) {
          KeptHit(s, id, e);
        }
      }
    case Refreshed(kind, key, _) => UseIsCurrent(s, k);
    case _ =>
  }

  lemma UseIsCurrent(s: State, k: Thread)
    requires MemoryOk(s) && ThreadOk(s, k) && Clean(s, k) && k.call.Refreshed?
    ensures GemmStep(s, k).call.operand == Slice(s.models[k.call.owner.value], k.call.key)
  {
    var id, k' := k.call.owner.value, GemmStep(s, k);
    ReadSlice(s, id, k.call.key);
    var hit := Find(k.cache, k.call.kind, k.call.key);
    if hit.Some? {
      if hit.value.owner.Some? { HitIsCurrent(s, k, hit.value); }
    } else {
      var hit' := Find(k'.cache, k.call.kind, k.call.key);
      assert hit'.Some? ==> hit'.value == k'.cache[|k.cache|];
    }
  }

  /** Nothing but a foreign call of its own takes trust from a thread. */
  lemma StaysClean(s: State, a: Action, t: nat)
    requires Inv(s) && t < |s.threads| && Clean(s, s.threads[t]) && Enabled(s, a) && !ForeignGemm(a, t)
    ensures t < |Step(s, a).threads| && Inv(Step(s, a)) && Clean(Step(s, a), Step(s, a).threads[t])
  {
    var s', k := Step(s, a), s.threads[t];
    StepInv(s, a);
    if a == Advance(t) {
      CallStaysClean(s, k);
      SameTrust(s, s', s'.threads[t]);
    } else if a.Gemm? || a.Advance? {
      SameTrust(s, s', k);
      if a.Gemm? && a.t == t { SameTrust(s, s', s'.threads[t]); }
    } else {
      WorldKeepsTrust(s, a, k);
      if !k.call.NoCall? { ModelsOnlyAge(s, a, k.call.owner.value); }
    }
  }

  lemma SameTrust(s: State, s': State, k: Thread)
    requires s'.models == s.models && s'.generation == s.generation
    ensures Trusted(s, k) <==> Trusted(s', k)
  {
    assert forall e :: Kept(s, e) <==> Kept(s', e);
  }

  lemma WorldKeepsTrust(s: State, a: Action, k: Thread)
    requires Enabled(s, a) && !a.Gemm? && !a.Advance? && Trusted(s, k) && k.seen <= s.generation
    ensures Trusted(Step(s, a), k)
  {
    var s' := Step(s, a);
    if k.seen == s'.generation {
      forall e | e in k.cache && e.owner.None? ensures Kept(s', e) {
        var id :| id in s.models && KeptBy(s.models[id], e);
        ModelsOnlyAge(s, a, id);
        assert KeptBy(s'.models[id], e);
      }
    }
  }

  /** Thread `t` begins a GEMM on memory that no model holds. */
  predicate ForeignGemm(a: Action, t: nat) {
    a.Gemm? && a.t == t && a.owner.None?
  }

  predicate NoForeign(acts: seq<Action>, t: nat) {
    forall i :: 0 <= i < |acts| ==> !ForeignGemm(acts[i], t)
  }

  /** If thread `t` is multiplying by a model's weights, it multiplies by their current
      contents: what memory holds at that address now, and what the model loaded. */
  ghost predicate Current(s: State, t: nat)
    requires t < |s.threads|
  {
    var c := s.threads[t].call;
    c.Using? && c.owner.Some? ==>
      && c.operand == Read(s.mem, c.key.addr, Length(c.key)) && |c.operand| == c.key.d * c.key.k
      && c.owner.value in s.models && s.models[c.owner.value].phase.Live? && Operand(s.models[c.owner.value], c.key)
      && c.operand == Slice(s.models[c.owner.value], c.key)
  }

  lemma {:induction false} CleanRun(s: State, acts: seq<Action>, end: State, t: nat)
    requires Inv(s) && t < |s.threads| && Clean(s, s.threads[t]) && Leads(s, acts, end) && NoForeign(acts, t)
    ensures t < |end.threads| && Inv(end) && Clean(end, end.threads[t]) && Current(end, t)
    decreases |acts|
  {
    if acts == [] {
      if s.threads[t].call.Using? { ReadSlice(s, s.threads[t].call.owner.value, s.threads[t].call.key); }
    } else {
      StaysClean(s, acts[0], t);
      CleanRun(Step(s, acts[0]), acts[1..], end, t);
    }
  }

  lemma {:induction false} SameThreads(s: State, acts: seq<Action>, end: State)
    requires Leads(s, acts, end)
    ensures |end.threads| == |s.threads|
    decreases |acts|
  {
    if acts != [] { SameThreads(Step(s, acts[0]), acts[1..], end); }
  }

  /** Over every interleaving, a thread that itself multiplies only by models' weights
      multiplies by their current contents, whatever the other threads do. */
  lemma GemmUsesCurrentWeights(mem: nat -> int, threads: nat, acts: seq<Action>, end: State, t: nat)
    requires Leads(Initial(mem, threads), acts, end) && t < |end.threads| && NoForeign(acts, t)
    ensures Current(end, t)
  {
    SameThreads(Initial(mem, threads), acts, end);
    CleanRun(Initial(mem, threads), acts, end, t);
  }

  /** It is enough that a thread has made no foreign call since some model's drop: what
      came before that drop does not matter. */
  lemma CurrentSinceTheLastDrop(mem: nat -> int, threads: nat, before: seq<Action>, s: State, id: nat,
      acts: seq<Action>, end: State, t: nat)
    requires Leads(Initial(mem, threads), before, s) && t < |s.threads| && s.threads[t].call.NoCall?
    requires Enabled(s, DropBegin(id)) && Leads(Step(s, DropBegin(id)), acts, end) && NoForeign(acts, t)
    ensures t < |end.threads| && Current(end, t)
  {
    RunInv(Initial(mem, threads), before, s);
    StepInv(s, DropBegin(id));
    CleanRun(Step(s, DropBegin(id)), acts, end, t);
  }

  // ----- capacity

  lemma {:induction false} CountAppend(cache: seq<Entry>, e: Entry, kind: Kind)
    ensures CountKind(cache + [e], kind) == CountKind(cache, kind) + if e.kind == kind then 1 else 0
  {
    if cache != [] {
      CountAppend(cache[1..], e, kind);
      assert (cache + [e])[1..] == cache[1..] + [e];
    } else {
      assert cache + [e] == [e];
    }
  }

  ghost predicate Bounded(k: Thread) {
    forall kind :: CountKind(k.cache, kind) <= PACK_CAP
  }

  lemma StepBounded(s: State, k: Thread)
    requires Bounded(k)
    ensures Bounded(GemmStep(s, k))
  {
    if k.call.Refreshed? {
      var c := k.call;
      forall kind ensures CountKind(GemmStep(s, k).cache, kind) <= PACK_CAP {
        CountAppend(k.cache, Entry(c.kind, c.key, Read(s.mem, c.key.addr, Length(c.key)), c.owner), kind);
      }
    }
  }

  lemma {:induction false} RunBounded(s: State, acts: seq<Action>, end: State)
    requires Leads(s, acts, end) && forall t :: 0 <= t < |s.threads| ==> Bounded(s.threads[t])
    ensures forall t :: 0 <= t < |end.threads| ==> Bounded(end.threads[t])
    decreases |acts|
  {
    if acts != [] {
      if acts[0].Advance? { StepBounded(s, s.threads[acts[0].t]); }
      RunBounded(Step(s, acts[0]), acts[1..], end);
    }
  }

  /** No cache of any thread ever holds more than 32 packs of a kind. */
  lemma CapacityKept(mem: nat -> int, threads: nat, acts: seq<Action>, end: State)
    requires Leads(Initial(mem, threads), acts, end)
    ensures forall t, kind :: 0 <= t < |end.threads| ==> CountKind(end.threads[t].cache, kind) <= 32
  {
    RunBounded(Initial(mem, threads), acts, end);
    forall t, kind | 0 <= t < |end.threads| ensures CountKind(end.threads[t].cache, kind) <= PACK_CAP {
      assert Bounded(end.threads[t]);
    }
  }

  /** The drop is what keeps the cache honest: if the words under a cached key
      change without one, the old pack is used. */
  lemma WithoutADropThePackIsStale(cache: seq<Entry>, kind: Kind, key: Key, owner: Option<nat>, before: nat -> int,
      now: nat -> int)
    requires Find(cache, kind, key).None? && CountKind(cache, kind) < PACK_CAP
    ensures Chosen(Packed(Packed(cache, kind, key, owner, before), kind, key, owner, now), kind, key, now)
      == Read(before, key.addr, Length(key))
  {
    var e := Entry(kind, key, Read(before, key.addr, Length(key)), owner);
    var cache' := cache + [e];
    assert e in cache';
    var hit := Find(cache', kind, key);
    assert hit.Some? && hit.value in cache';
    assert hit.value == e;
  }
}

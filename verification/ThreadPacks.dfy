/** One thread's three cache vectors and its generation cell, updated in place, against
    the transition system of `PackCache`. */
module ThreadPacks {
  import opened PackCache
  import opened Wrappers

  /** The entries of one kind, in the order they were pushed. */
  function Of(cache: seq<Entry>, kind: Kind): seq<Entry> {
    if cache == [] then [] else (if cache[0].kind == kind then [cache[0]] else []) + Of(cache[1..], kind)
  }

  lemma {:induction false} OfFacts(cache: seq<Entry>, kind: Kind, key: Key)
    ensures CountKind(cache, kind) == |Of(cache, kind)|
    ensures Find(cache, kind, key) == Find(Of(cache, kind), kind, key)
    ensures forall e :: e in Of(cache, kind) ==> e.kind == kind
  {
    if cache != [] {
      OfFacts(cache[1..], kind, key);
      if cache[0].kind == kind {
        assert ([cache[0]] + Of(cache[1..], kind))[1..] == Of(cache[1..], kind);
      } else {
        assert [] + Of(cache[1..], kind) == Of(cache[1..], kind);
      }
    }
  }

  lemma {:induction false} OfAppend(cache: seq<Entry>, e: Entry, kind: Kind)
    ensures Of(cache + [e], kind) == Of(cache, kind) + if e.kind == kind then [e] else []
  {
    if cache == [] {
      assert [] + [e] == [e] && [e][1..] == [];
    } else {
      OfAppend(cache[1..], e, kind);
      assert (cache + [e])[1..] == cache[1..] + [e];
    }
  }

  lemma {:induction false} FindFirst(cache: seq<Entry>, kind: Kind, key: Key, i: nat)
    requires i < |cache| && cache[i].kind == kind && cache[i].key == key
    requires forall j :: 0 <= j < i ==> cache[j].key != key
    ensures Find(cache, kind, key) == Some(cache[i])
  {
    if i > 0 { FindFirst(cache[1..], kind, key, i - 1); }
  }

  class Packs {
    var seen: nat
    var f32A: seq<Entry>
    var f32B: seq<Entry>
    var i8B: seq<Entry>

    function Vector(kind: Kind): seq<Entry>
      reads this
    {
      match kind
      case F32A => f32A
      case F32B => f32B
      case I8B => i8B
    }

    /** The thread's state is that of `k`. */
    ghost predicate Is(k: Thread)
      reads this
    {
      seen == k.seen && forall kind :: Vector(kind) == Of(k.cache, kind)
    }

    constructor ()
      ensures Is(Thread(0, [], NoCall))
    {
      seen, f32A, f32B, i8B := 0, [], [], [];
    }

    /** Clear all three vectors when the generation has moved. */
    method Refresh(generation: nat, ghost s: State, ghost k: Thread)
      requires Is(k) && k.call.ReadGen? && k.call.seenNow == generation
      modifies this
      ensures Is(GemmStep(s, k))
    {
      if seen != generation {
        f32A, f32B, i8B := [], [], [];
        seen := generation;
      }
    }

    /** The first entry under `key` in one vector. */
    method Position(kind: Kind, key: Key) returns (at: Option<nat>)
      ensures at.Some? ==> at.value < |Vector(kind)| && Vector(kind)[at.value].key == key
      ensures at.Some? ==> forall j :: 0 <= j < at.value ==> Vector(kind)[j].key != key
      ensures at.None? ==> forall j :: 0 <= j < |Vector(kind)| ==> Vector(kind)[j].key != key
    {
      var v := Vector(kind);
      for i := 0 to |v|
        invariant forall j :: 0 <= j < i ==> v[j].key != key
      {
        if v[i].key == key {
          return Some(i);
        }
      }
      return None;
    }

    method Push(kind: Kind, e: Entry)
      modifies this
      ensures seen == old(seen)
      ensures forall other :: Vector(other) == old(Vector(other)) + if other == kind then [e] else []
    {
      match kind
      case F32A => f32A := f32A + [e];
      case F32B => f32B := f32B + [e];
      case I8B => i8B := i8B + [e];
    }

    /** Pack the operand if it is neither cached nor over capacity, then multiply by the
        pack if there is one and by memory otherwise. */
    method Operand(kind: Kind, key: Key, owner: Option<nat>, ghost s: State, mem: nat -> int,
      ghost k: Thread) returns (operand: seq<int>)
      requires Is(k) && k.call == Refreshed(kind, key, owner) && mem == s.mem
      modifies this
      ensures Is(GemmStep(s, k)) && GemmStep(s, k).call == Using(kind, key, owner, operand)
    {
      var hit := Position(kind, key);
      FindsHit(kind, key, k, hit);
      if hit.None? && |Vector(kind)| < PACK_CAP {
        var e := Entry(kind, key, Read(mem, key.addr, Length(key)), owner);
        forall other ensures Of(k.cache + [e], other) == Of(k.cache, other) + if other == kind then [e] else [] {
          OfAppend(k.cache, e, other);
        }
        Push(kind, e);
      }
      hit := Position(kind, key);
      FindsHit(kind, key, GemmStep(s, k), hit);
      operand := if hit.Some? then Vector(kind)[hit.value].pack else Read(mem, key.addr, Length(key));
    }

    /** Searching the vector is searching the thread's cache. */
    lemma FindsHit(kind: Kind, key: Key, k: Thread, hit: Option<nat>)
      requires Is(k)
      requires hit.Some? ==> hit.value < |Vector(kind)| && Vector(kind)[hit.value].key == key
      requires hit.Some? ==> forall j :: 0 <= j < hit.value ==> Vector(kind)[j].key != key
      requires hit.None? ==> forall j :: 0 <= j < |Vector(kind)| ==> Vector(kind)[j].key != key
      ensures Find(k.cache, kind, key) == if hit.Some? then Some(Vector(kind)[hit.value]) else None
      ensures CountKind(k.cache, kind) == |Vector(kind)|
    {
      OfFacts(k.cache, kind, key);
      if hit.Some? {
        assert Vector(kind)[hit.value] in Vector(kind);
        FindFirst(Vector(kind), kind, key, hit.value);
      }
    }
  }
}

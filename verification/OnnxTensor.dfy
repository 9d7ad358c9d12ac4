/** One initializer of an ONNX model, read straight from the protobuf bytes of its
    TensorProto. A tensor's name is the lossy decoding `text` of its bytes. */
module OnnxTensor {
  import opened Protobuf
  import opened Wrappers

  const DT_FLOAT := 1
  const DT_INT8 := 3
  const DT_INT32 := 6

  // ----- casts

  function AsI64(v: nat): int {
    var w := v % TWO64;
    if w < 0x8000_0000_0000_0000 then w else w - TWO64
  }

  function AsI32(v: nat): int {
    var w := v % 0x1_0000_0000;
    if w < 0x8000_0000 then w else w - 0x1_0000_0000
  }

  function AsI8(v: int): int {
    var w := v % 256;
    if w < 128 then w else w - 256
  }

  function AsUsize(d: int): nat {
    if d < 0 then 0 else d
  }

  function Map<A, B>(f: A -> B, s: seq<A>): (r: seq<B>)
    ensures |r| == |s| && forall i :: 0 <= i < |s| ==> r[i] == f(s[i])
  {
    seq(|s|, i requires 0 <= i < |s| => f(s[i]))
  }

  /** Four bytes, least significant first. */
  function Word(s: Bytes): nat
    requires |s| == 4
  {
    var b0: nat, b1: nat, b2: nat, b3: nat := s[0], s[1], s[2], s[3];
    b0 + 0x100 * b1 + 0x1_0000 * b2 + 0x100_0000 * b3
  }

  function Words(s: Bytes): (r: seq<nat>)
    requires |s| % 4 == 0
    ensures |r| == |s| / 4
  {
    if s == [] then [] else [Word(s[..4])] + Words(s[4..])
  }

  // ----- one tensor

  /** Float payloads are kept as their 32-bit patterns. */
  datatype Payload = F32(bits: seq<nat>) | I8(values: seq<int>) | I32(values: seq<int>)

  datatype Tensor = Tensor(name: string, dims: seq<nat>, payload: Payload)

  datatype State = State(dims: seq<int>, dataType: int, name: Bytes, raw: Option<Bytes>, floats: seq<nat>,
    ints: seq<int>)

  const BLANK := State([], 0, [], None, [], [])

  type Decoding = Bytes -> string

  /** What one field does to the tensor being read. */
  function Apply(st: State, f: Field): Result<State> {
    match (f.num, f.wire)
    case (1, VarintWire(v)) => Ok(st.(dims := st.dims + [AsI64(v)]))
    case (1, Blob(blob)) =>
      var vs := Varints(blob, 0);
      if vs.Err? then Err(vs.error) else Ok(st.(dims := st.dims + Map(AsI64, vs.value)))
    case (2, VarintWire(v)) => Ok(st.(dataType := AsI32(v)))
    case (4, Blob(blob)) =>
      if |blob| % 4 != 0 then Err(NotMultipleOfFour) else Ok(st.(floats := st.floats + Words(blob)))
    case (4, Fixed32(four)) =>
      if |four| == 4 then Ok(st.(floats := st.floats + [Word(four)])) else Ok(st)
    case (5, Blob(blob)) =>
      var vs := Varints(blob, 0);
      if vs.Err? then Err(vs.error) else Ok(st.(ints := st.ints + Map(AsI32, vs.value)))
    case (5, VarintWire(v)) => Ok(st.(ints := st.ints + [AsI32(v)]))
    case (8, Blob(blob)) => Ok(st.(name := blob))
    case (9, Blob(blob)) => Ok(st.(raw := Some(blob)))
    case _ => Ok(st)
  }

  function Product(dims: seq<nat>): nat {
    if dims == [] then 1 else Product(dims[..|dims| - 1]) * dims[|dims| - 1]
  }

  function Count(p: Payload): nat {
    match p
    case F32(bits) => |bits|
    case I8(values) => |values|
    case I32(values) => |values|
  }

  /** The payload the collected fields spell, or none for a type that is not read. */
  function PayloadOf(st: State): Result<Option<Payload>> {
    if st.dataType == DT_FLOAT then
      if st.raw.None? then Ok(Some(F32(st.floats)))
      else if |st.raw.value| % 4 != 0 then Err(NotMultipleOfFour)
      else Ok(Some(F32(Words(st.raw.value))))
    else if st.dataType == DT_INT8 then
      if st.raw.None? then Ok(Some(I8(Map(AsI8, st.ints)))) else Ok(Some(I8(Map(b => AsI8(b), st.raw.value))))
    else if st.dataType == DT_INT32 then
      if st.raw.None? then Ok(Some(I32(st.ints)))
      else if |st.raw.value| % 4 != 0 then Err(NotMultipleOfFour)
      else Ok(Some(I32(Map(AsI32, Words(st.raw.value)))))
    else Ok(None)
  }

  /** The element count must match the shape, whose product wraps at 64 bits. */
  function Finish(st: State, text: Decoding): (r: Result<Option<Tensor>>)
    ensures r.Ok? && r.value.Some? ==> var t := r.value.value; Count(t.payload) == Low64(Product(t.dims))
  {
    var p := PayloadOf(st);
    if p.Err? then Err(p.error)
    else if p.value.None? then Ok(None)
    else
      var dims := Map(AsUsize, st.dims);
      if Low64(Product(dims)) != Count(p.value.value) then Err(WrongCount)
      else Ok(Some(Tensor(text(st.name), dims, p.value.value)))
  }

  /** Fold the fields of a TensorProto from `pos` on. */
  function TensorFrom(bytes: Bytes, pos: nat, st: State, text: Decoding): (r: Result<Option<Tensor>>)
    requires pos <= |bytes|
    decreases |bytes| - pos
  {
    if pos == |bytes| then Finish(st, text)
    else
      var f := NextField(bytes, pos);
      if f.Err? then Err(f.error)
      else
        var next := Apply(st, f.value.0);
        if next.Err? then Err(next.error) else TensorFrom(bytes, f.value.1, next.value, text)
  }

  /** The dimensions multiplied one by one, wrapping each time. */
  method WrappingProduct(dims: seq<nat>) returns (p: nat)
    ensures p == Low64(Product(dims))
  {
    p := 1;
    for i := 0 to |dims|
      invariant p == Low64(Product(dims[..i]))
    {
      assert dims[..i + 1][..i] == dims[..i];
      WrapStep(Product(dims[..i]), dims[i]);
      p := Low64(p * dims[i]);
    }
    assert dims[..|dims|] == dims;
  }

  lemma WrapStep(a: nat, b: nat)
    ensures Low64(Low64(a) * b) == Low64(a * b)
  {
    var q, r := a / TWO64, Low64(a);
    assert a * b == (q * b) * TWO64 + r * b by {
      assert a == q * TWO64 + r;
    }
    WholeTurns(q * b, r * b);
  }

  lemma WholeTurns(q: nat, r: nat)
    ensures Low64(q * TWO64 + r) == Low64(r)
  {
  }

  /** Read one TensorProto field by field. */
  method ParseTensorProto(bytes: Bytes, text: Decoding) returns (r: Result<Option<Tensor>>)
    ensures r == TensorFrom(bytes, 0, BLANK, text)
  {
    var pos, st := 0, BLANK;
    while pos < |bytes|
      invariant pos <= |bytes|
      invariant TensorFrom(bytes, pos, st, text) == TensorFrom(bytes, 0, BLANK, text)
      decreases |bytes| - pos
    {
      var key := ReadVarint(bytes, pos);
      if key.Err? {
        return Err(key.error);
      }
      var step := ReadField(bytes, key.value.1, key.value.0 / 8, key.value.0 % 8, st);
      if step.Err? {
        return Err(step.error);
      }
      st, pos := step.value.0, step.value.1;
    }
    var dims := Map(AsUsize, st.dims);
    var expected := WrappingProduct(dims);
    var payload := PayloadOf(st);
    if payload.Err? {
      return Err(payload.error);
    }
    if payload.value.None? {
      return Ok(None);
    }
    if expected != Count(payload.value.value) {
      return Err(WrongCount);
    }
    r := Ok(Some(Tensor(text(st.name), dims, payload.value.value)));
  }

  /** The state and position after a field, as one result. */
  function Applied(st: State, wire: Result<(Wire, nat)>, num: nat): Result<(State, nat)> {
    if wire.Err? then Err(wire.error)
    else
      var next := Apply(st, Field(num, wire.value.0));
      if next.Err? then Err(next.error) else Ok((next.value, wire.value.1))
  }

  /** One arm of the reader's loop: known fields are read, all others skipped. */
  method ReadField(bytes: Bytes, pos: nat, num: nat, wire: nat, st: State) returns (r: Result<(State, nat)>)
    requires pos <= |bytes|
    ensures r == Applied(st, ReadWire(bytes, pos, wire), num)
  {
    if wire == 0 && (num == 1 || num == 2 || num == 5) {
      var v := ReadVarint(bytes, pos);
      if v.Err? {
        return Err(v.error);
      }
      if num == 1 {
        r := Ok((st.(dims := st.dims + [AsI64(v.value.0)]), v.value.1));
      } else if num == 2 {
        r := Ok((st.(dataType := AsI32(v.value.0)), v.value.1));
      } else {
        r := Ok((st.(ints := st.ints + [AsI32(v.value.0)]), v.value.1));
      }
    } else if wire == 2 && (num == 1 || num == 4 || num == 5 || num == 8 || num == 9) {
      var b := ReadLenBlob(bytes, pos);
      if b.Err? {
        return Err(b.error);
      }
      var blob, end := b.value.0, b.value.1;
      if num == 1 || num == 5 {
        var vs := ReadVarints(blob);
        if vs.Err? {
          return Err(vs.error);
        }
        if num == 1 {
          r := Ok((st.(dims := st.dims + Map(AsI64, vs.value)), end));
        } else {
          r := Ok((st.(ints := st.ints + Map(AsI32, vs.value)), end));
        }
      } else if num == 4 {
        if |blob| % 4 != 0 {
          return Err(NotMultipleOfFour);
        }
        r := Ok((st.(floats := st.floats + Words(blob)), end));
      } else if num == 8 {
        r := Ok((st.(name := blob), end));
      } else {
        r := Ok((st.(raw := Some(blob)), end));
      }
    } else if wire == 5 && num == 4 {
      if pos + 4 > |bytes| {
        return Err(TruncatedField);
      }
      r := Ok((st.(floats := st.floats + [Word(bytes[pos..pos + 4])]), pos + 4));
    } else {
      var p := SkipValue(bytes, pos, wire);
      if p.Err? {
        return Err(p.error);
      }
      r := Ok((st, p.value));
    }
  }

  // ----- writing a tensor

  /** One field of a TensorProto as some writer may emit it: dimensions and integers
      one by one or packed, in any order, with any other field in between. */
  datatype Entry =
    | Dim(dim: nat)
    | PackedDims(dims: seq<nat>)
    | DataType(code: nat)
    | Float(pattern: nat)
    | PackedFloats(patterns: seq<nat>)
    | Int(value: int)
    | PackedInts(values: seq<int>)
    | Name(utf8: Bytes)
    | Raw(bytes: Bytes)
    | Other(field: Field)

  predicate Dims64(dims: seq<nat>) {
    forall i :: 0 <= i < |dims| ==> dims[i] < 0x8000_0000_0000_0000
  }

  predicate Int32(v: int) {
    -0x8000_0000 <= v < 0x8000_0000
  }

  predicate Ints32(vs: seq<int>) {
    forall i :: 0 <= i < |vs| ==> Int32(vs[i])
  }

  predicate Patterns(ws: seq<nat>) {
    forall i :: 0 <= i < |ws| ==> ws[i] < 0x1_0000_0000
  }

  /** A signed number as the 64-bit varint that stands for it. */
  function Unsigned(v: int): nat
    requires Int32(v)
  {
    if v < 0 then v + TWO64 else v
  }

  function WordBytes(w: nat): (s: Bytes)
    requires w < 0x1_0000_0000
    ensures |s| == 4
  {
    [w % 256, w / 0x100 % 256, w / 0x1_0000 % 256, w / 0x100_0000]
  }

  function WordsBytes(ws: seq<nat>): (s: Bytes)
    requires Patterns(ws)
    ensures |s| == 4 * |ws|
  {
    if ws == [] then [] else WordBytes(ws[0]) + WordsBytes(ws[1..])
  }

  function EntryField(e: Entry): Field
    requires Proper(e)
  {
    match e
    case Dim(d) => Field(1, VarintWire(d))
    case PackedDims(ds) => Field(1, Blob(EncodeVarints(ds)))
    case DataType(code) => Field(2, VarintWire(code))
    case Float(p) => Field(4, Fixed32(WordBytes(p)))
    case PackedFloats(ps) => Field(4, Blob(WordsBytes(ps)))
    case Int(v) => Field(5, VarintWire(Unsigned(v)))
    case PackedInts(vs) => Field(5, Blob(EncodeVarints(Unsigneds(vs))))
    case Name(s) => Field(8, Blob(s))
    case Raw(s) => Field(9, Blob(s))
    case Other(f) => f
  }

  function Unsigneds(vs: seq<int>): (r: seq<nat>)
    requires Ints32(vs)
    ensures |r| == |vs| && forall i :: 0 <= i < |vs| ==> r[i] == Unsigned(vs[i])
  {
    seq(|vs|, i requires 0 <= i < |vs| => Unsigned(vs[i]))
  }

  /** A field the reader knows: its number with one of the wire types it may come in. */
  predicate Known(f: Field) {
    match f.wire
    case VarintWire(_) => f.num in {1, 2, 5}
    case Blob(_) => f.num in {1, 4, 5, 8, 9}
    case Fixed32(_) => f.num == 4
    case Fixed64(_) => false
  }

  /** An entry with values in range; an `Other` field is any the reader does not know. */
  predicate Proper(e: Entry) {
    match e
    case Dim(d) => d < 0x8000_0000_0000_0000
    case PackedDims(ds) => Dims64(ds)
    case DataType(code) => code < 0x8000_0000
    case Float(p) => p < 0x1_0000_0000
    case PackedFloats(ps) => Patterns(ps)
    case Int(v) => Int32(v)
    case PackedInts(vs) => Ints32(vs)
    case Name(_) => true
    case Raw(_) => true
    case Other(f) => Writable(f) && !Known(f)
  }

  predicate AllProper(es: seq<Entry>) {
    forall i :: 0 <= i < |es| ==> Proper(es[i])
  }

  function EncodeEntries(es: seq<Entry>): Bytes
    requires AllProper(es)
  {
    if es == [] then [] else EncodeField(EntryField(es[0])) + EncodeEntries(es[1..])
  }

  // ----- what the entries mean, each kind on its own

  function Gather<T>(part: Entry -> seq<T>, es: seq<Entry>): seq<T> {
    if es == [] then [] else part(es[0]) + Gather(part, es[1..])
  }

  lemma GatherOne<T>(part: Entry -> seq<T>, e: Entry)
    ensures Gather(part, [e]) == part(e)
  {
    assert [e][1..] == [];
    assert part(e) + [] == part(e);
  }

  function DimsIn(e: Entry): seq<int> {
    match e
    case Dim(d) => [d]
    case PackedDims(ds) => ds
    case _ => []
  }

  function DimsOf(es: seq<Entry>): seq<int> {
    Gather(DimsIn, es)
  }

  function FloatsIn(e: Entry): seq<nat> {
    match e
    case Float(p) => [p]
    case PackedFloats(ps) => ps
    case _ => []
  }

  function FloatsOf(es: seq<Entry>): seq<nat> {
    Gather(FloatsIn, es)
  }

  function IntsIn(e: Entry): seq<int> {
    match e
    case Int(v) => [v]
    case PackedInts(vs) => vs
    case _ => []
  }

  function IntsOf(es: seq<Entry>): seq<int> {
    Gather(IntsIn, es)
  }

  /** The last one wins, here and below. */
  function CodeOf(es: seq<Entry>, before: nat): nat {
    if es == [] then before else CodeOf(es[1..], if es[0].DataType? then es[0].code else before)
  }

  function NameOf(es: seq<Entry>, before: Bytes): Bytes {
    if es == [] then before else NameOf(es[1..], if es[0].Name? then es[0].utf8 else before)
  }

  function RawOf(es: seq<Entry>, before: Option<Bytes>): Option<Bytes> {
    if es == [] then before else RawOf(es[1..], if es[0].Raw? then Some(es[0].bytes) else before)
  }

  function After(es: seq<Entry>, st: State): State
    requires st.dataType >= 0
  {
    State(st.dims + DimsOf(es), CodeOf(es, st.dataType), NameOf(es, st.name), RawOf(es, st.raw),
          st.floats + FloatsOf(es), st.ints + IntsOf(es))
  }

  // ----- reading inverts writing

  lemma WordRoundTrip(w: nat)
    requires w < 0x1_0000_0000
    ensures Word(WordBytes(w)) == w
  {
    assert w / 0x100 / 256 == w / 0x1_0000;
    assert w / 0x1_0000 / 256 == w / 0x100_0000;
  }

  lemma {:induction false} WordsRoundTrip(ws: seq<nat>)
    requires Patterns(ws)
    ensures Words(WordsBytes(ws)) == ws
  {
    if ws != [] {
      var s := WordsBytes(ws);
      WordRoundTrip(ws[0]);
      WordsRoundTrip(ws[1..]);
      assert s[..4] == WordBytes(ws[0]) && s[4..] == WordsBytes(ws[1..]);
    }
  }

  lemma DimsRoundTrip(ds: seq<nat>)
    requires Dims64(ds)
    ensures Varints(EncodeVarints(ds), 0) == Ok(ds) && Map(AsI64, ds) == ds
  {
    forall i | 0 <= i < |ds| ensures AsI64(ds[i]) == ds[i] && ds[i] < TWO64 {
      SmallDim(ds[i]);
    }
    WholeRoundTrip(ds);
  }

  lemma SmallDim(d: nat)
    requires d < 0x8000_0000_0000_0000
    ensures AsI64(d) == d && d < TWO64
  {
  }

  lemma WholeRoundTrip(vs: seq<nat>)
    requires Numbers(vs)
    ensures Varints(EncodeVarints(vs), 0) == Ok(vs)
  {
    VarintsRoundTrip(EncodeVarints(vs), 0, vs);
  }

  lemma IntRoundTrip(v: int)
    requires Int32(v)
    ensures AsI32(Unsigned(v)) == v && Unsigned(v) < TWO64
  {
  }

  lemma IntsRoundTrip(vs: seq<int>)
    requires Ints32(vs)
    ensures var us := Unsigneds(vs);
      Varints(EncodeVarints(us), 0) == Ok(us) && Map(AsI32, us) == vs
  {
    var us := Unsigneds(vs);
    forall i | 0 <= i < |vs| ensures AsI32(us[i]) == vs[i] && us[i] < TWO64 {
      IntRoundTrip(vs[i]);
    }
    WholeRoundTrip(us);
  }

  /** What one entry does to a state. */
  function Effect(e: Entry, st: State): State {
    match e
    case Dim(d) => st.(dims := st.dims + [d])
    case PackedDims(ds) => st.(dims := st.dims + ds)
    case DataType(code) => st.(dataType := code)
    case Float(p) => st.(floats := st.floats + [p])
    case PackedFloats(ps) => st.(floats := st.floats + ps)
    case Int(v) => st.(ints := st.ints + [v])
    case PackedInts(vs) => st.(ints := st.ints + vs)
    case Name(s) => st.(name := s)
    case Raw(s) => st.(raw := Some(s))
    case Other(_) => st
  }

  lemma OneEntry(e: Entry, st: State)
    requires st.dataType >= 0
    ensures After([e], st) == Effect(e, st)
  {
    assert [e][1..] == [];
    assert NameOf([e], st.name) == if e.Name? then e.utf8 else st.name;
    assert RawOf([e], st.raw) == if e.Raw? then Some(e.bytes) else st.raw;
    assert CodeOf([e], st.dataType) == if e.DataType? then e.code else st.dataType;
    assert st.dims + [] == st.dims && st.floats + [] == st.floats && st.ints + [] == st.ints;
    GatherOne(DimsIn, e);
    GatherOne(FloatsIn, e);
    GatherOne(IntsIn, e);
  }

  /** Reading the field of one entry has the entry's effect. */
  lemma EntryRead(e: Entry, st: State)
    requires Proper(e)
    ensures Apply(st, EntryField(e)) == Ok(Effect(e, st))
  {
    match e
    case Dim(d) => SmallDim(d);
    case Float(p) => WordRoundTrip(p);
    case Int(v) => IntRoundTrip(v);
    case PackedDims(_) => PackedRead(e, st);
    case PackedFloats(_) => PackedRead(e, st);
    case PackedInts(_) => PackedRead(e, st);
    case _ =>
  }

  lemma PackedRead(e: Entry, st: State)
    requires Proper(e) && (e.PackedDims? || e.PackedFloats? || e.PackedInts?)
    ensures Apply(st, EntryField(e)) == Ok(Effect(e, st))
  {
    match e
    case PackedDims(ds) => DimsRoundTrip(ds);
    case PackedFloats(ps) => WordsRoundTrip(ps);
    case PackedInts(vs) => IntsRoundTrip(vs);
  }

  lemma AfterFirst(es: seq<Entry>, st: State)
    requires es != [] && st.dataType >= 0
    ensures After([es[0]], st).dataType >= 0 && After(es[1..], After([es[0]], st)) == After(es, st)
  {
    LastFirst(es, st);
    GatherFirst(DimsIn, es, st.dims);
    GatherFirst(FloatsIn, es, st.floats);
    GatherFirst(IntsIn, es, st.ints);
  }

  lemma GatherFirst<T>(part: Entry -> seq<T>, es: seq<Entry>, before: seq<T>)
    requires es != []
    ensures before + Gather(part, [es[0]]) + Gather(part, es[1..]) == before + Gather(part, es)
  {
    GatherOne(part, es[0]);
    assert before + part(es[0]) + Gather(part, es[1..]) == before + (part(es[0]) + Gather(part, es[1..]));
  }

  lemma LastFirst(es: seq<Entry>, st: State)
    requires es != [] && st.dataType >= 0
    ensures CodeOf(es[1..], CodeOf([es[0]], st.dataType)) == CodeOf(es, st.dataType)
    ensures NameOf(es[1..], NameOf([es[0]], st.name)) == NameOf(es, st.name)
    ensures RawOf(es[1..], RawOf([es[0]], st.raw)) == RawOf(es, st.raw)
  {
    var e := es[0];
    assert [e][1..] == [];
    assert NameOf([e], st.name) == if e.Name? then e.utf8 else st.name;
    assert RawOf([e], st.raw) == if e.Raw? then Some(e.bytes) else st.raw;
    assert CodeOf([e], st.dataType) == if e.DataType? then e.code else st.dataType;
  }

  lemma EntryWritable(e: Entry)
    requires Proper(e) && Slice(EncodeField(EntryField(e)))
    ensures Writable(EntryField(e))
  {
    match e
    case Int(v) => IntRoundTrip(v);
    case _ =>
  }

  /** Whatever the order, packing and unknown fields, the reader ends with each kind of
      field as if alone. */
  lemma EntriesRead(bytes: Bytes, pos: nat, es: seq<Entry>, st: State, text: Decoding, r: Result<Option<Tensor>>)
    requires Slice(bytes) && AllProper(es) && st.dataType >= 0
    requires At(bytes, pos, EncodeEntries(es)) && pos + |EncodeEntries(es)| == |bytes|
    requires r == TensorFrom(bytes, pos, st, text)
    ensures r == Finish(After(es, st), text)
  {
    EntriesLead(bytes, pos, es, st, After(es, st), text, r);
  }

  lemma {:induction false} EntriesLead(bytes: Bytes, pos: nat, es: seq<Entry>, st: State, last: State, text: Decoding,
      r: Result<Option<Tensor>>)
    requires Slice(bytes) && AllProper(es) && st.dataType >= 0 && last == After(es, st)
    requires At(bytes, pos, EncodeEntries(es)) && pos + |EncodeEntries(es)| == |bytes|
    requires r == TensorFrom(bytes, pos, st, text)
    ensures r == Finish(last, text)
    decreases |es|
  {
    if es == [] {
      NothingAfter(st);
    } else {
      var next := After([es[0]], st);
      var end := FirstEntryAt(bytes, pos, es);
      EntryStep(bytes, pos, end, es[0], st, next, text, r);
      AfterFirst(es, st);
      EntriesLead(bytes, end, es[1..], next, last, text, r);
    }
  }

  /** The first entry and the others lie one behind the other. */
  lemma FirstEntryAt(bytes: Bytes, pos: nat, es: seq<Entry>) returns (end: nat)
    requires AllProper(es) && es != []
    requires At(bytes, pos, EncodeEntries(es)) && pos + |EncodeEntries(es)| == |bytes|
    ensures end == pos + |EncodeField(EntryField(es[0]))| && At(bytes, pos, EncodeField(EntryField(es[0])))
    ensures At(bytes, end, EncodeEntries(es[1..])) && end + |EncodeEntries(es[1..])| == |bytes|
  {
    var f, rest := EncodeField(EntryField(es[0])), EncodeEntries(es[1..]);
    end := pos + |f|;
    assert EncodeEntries(es) == f + rest;
    AtSplit(bytes, pos, f, rest);
  }

  lemma EntryStep(bytes: Bytes, pos: nat, end: nat, e: Entry, st: State, next: State, text: Decoding,
      r: Result<Option<Tensor>>)
    requires Slice(bytes) && Proper(e) && st.dataType >= 0 && At(bytes, pos, EncodeField(EntryField(e)))
    requires end == pos + |EncodeField(EntryField(e))| && next == After([e], st)
    requires r == TensorFrom(bytes, pos, st, text)
    ensures r == TensorFrom(bytes, end, next, text)
  {
    EntryWritable(e);
    FieldRoundTrip(bytes, pos, EntryField(e));
    EntryRead(e, st);
    OneEntry(e, st);
    FieldStep(bytes, pos, EntryField(e), end, st, next, text);
  }

  lemma FieldStep(bytes: Bytes, pos: nat, f: Field, end: nat, st: State, next: State, text: Decoding)
    requires pos < |bytes| && NextField(bytes, pos) == Ok((f, end)) && Apply(st, f) == Ok(next)
    ensures TensorFrom(bytes, pos, st, text) == TensorFrom(bytes, end, next, text)
  {
  }

  lemma NothingAfter(st: State)
    requires st.dataType >= 0
    ensures After([], st) == st
  {
    assert st.dims + [] == st.dims && st.floats + [] == st.floats && st.ints + [] == st.ints;
  }

  /** The entries spell tensor `t`: its dimensions, its name, and its elements either
      as raw bytes or in the typed field. */
  predicate Spells(es: seq<Entry>, t: Tensor, text: Decoding) {
    && AllProper(es)
    && DimsOf(es) == t.dims && text(NameOf(es, [])) == t.name && Product(t.dims) == Count(t.payload)
    && var code, raw := CodeOf(es, 0), RawOf(es, None);
       match t.payload
       case F32(bits) =>
         code == DT_FLOAT && if raw.None? then FloatsOf(es) == bits else Patterns(bits) && raw.value == WordsBytes(bits)
       case I8(values) =>
         code == DT_INT8 && Ints8(values) && if raw.None? then IntsOf(es) == values else raw.value == Octets(values)
       case I32(values) =>
         code == DT_INT32 && Ints32(values) &&
           if raw.None? then IntsOf(es) == values else raw.value == WordsBytes(Low32s(values))
  }

  predicate Ints8(vs: seq<int>) {
    forall i :: 0 <= i < |vs| ==> -128 <= vs[i] < 128
  }

  /** Signed bytes as they lie in memory. */
  function Octets(vs: seq<int>): (s: Bytes)
    requires Ints8(vs)
    ensures |s| == |vs| && forall i :: 0 <= i < |vs| ==> s[i] == Octet(vs[i])
  {
    seq(|vs|, i requires 0 <= i < |vs| => Octet(vs[i]))
  }

  function Octet(v: int): Byte
    requires -128 <= v < 128
  {
    if v < 0 then v + 256 else v
  }

  /** Signed words as they lie in memory. */
  function Low32s(vs: seq<int>): (ws: seq<nat>)
    requires Ints32(vs)
    ensures Patterns(ws) && |ws| == |vs| && forall i :: 0 <= i < |vs| ==> ws[i] == Low32(vs[i])
  {
    seq(|vs|, i requires 0 <= i < |vs| => Low32(vs[i]))
  }

  function Low32(v: int): nat
    requires Int32(v)
  {
    if v < 0 then v + 0x1_0000_0000 else v
  }

  /** A spelled tensor is read back exactly: one by one or packed, raw or typed, in any
      order, whatever unknown fields stand in between. */
  lemma TensorRoundTrip(es: seq<Entry>, t: Tensor, text: Decoding)
    requires Spells(es, t, text) && Slice(EncodeEntries(es))
    ensures TensorFrom(EncodeEntries(es), 0, BLANK, text) == Ok(Some(t))
  {
    EntriesRead(EncodeEntries(es), 0, es, BLANK, text, TensorFrom(EncodeEntries(es), 0, BLANK, text));
    AfterBlank(es);
    SpelledCount(es, t, text);
    FinishSpelled(es, t, text, After(es, BLANK));
  }

  lemma AfterBlank(es: seq<Entry>)
    ensures After(es, BLANK) ==
      State(DimsOf(es), CodeOf(es, 0), NameOf(es, []), RawOf(es, None), FloatsOf(es), IntsOf(es))
  {
    var st := After(es, BLANK);
    assert st.dims == DimsOf(es) && st.floats == FloatsOf(es) && st.ints == IntsOf(es);
  }

  lemma FinishSpelled(es: seq<Entry>, t: Tensor, text: Decoding, st: State)
    requires Spells(es, t, text) && Count(t.payload) < TWO64
    requires st == State(DimsOf(es), CodeOf(es, 0), NameOf(es, []), RawOf(es, None), FloatsOf(es), IntsOf(es))
    ensures Finish(st, text) == Ok(Some(t))
  {
    SpelledPayload(es, t, text, st);
    assert Map(AsUsize, st.dims) == t.dims;
  }

  lemma SpelledPayload(es: seq<Entry>, t: Tensor, text: Decoding, st: State)
    requires Spells(es, t, text)
    requires st.dataType == CodeOf(es, 0) && st.raw == RawOf(es, None) && st.floats == FloatsOf(es) &&
      st.ints == IntsOf(es)
    ensures PayloadOf(st) == Ok(Some(t.payload))
  {
    match t.payload
    case F32(bits) =>
      if st.raw.Some? { WordsRoundTrip(bits); }
    case I8(values) =>
      BytesRoundTrip(values);
    case I32(values) =>
      if st.raw.Some? { Low32RoundTrip(values); }
  }

  lemma BytesRoundTrip(values: seq<int>)
    requires Ints8(values)
    ensures Map(AsI8, values) == values && Map(b => AsI8(b), Octets(values)) == values
  {
    forall i | 0 <= i < |values| ensures AsI8(values[i]) == values[i] == AsI8(Octet(values[i])) {
    }
  }

  lemma Low32RoundTrip(values: seq<int>)
    requires Ints32(values)
    ensures Map(AsI32, Words(WordsBytes(Low32s(values)))) == values
  {
    WordsRoundTrip(Low32s(values));
    forall i | 0 <= i < |values| ensures AsI32(Low32s(values)[i]) == values[i] {
      Low32AsI32(values[i]);
    }
  }

  lemma Low32AsI32(v: int)
    requires Int32(v)
    ensures AsI32(Low32(v)) == v
  {
  }

  // ----- a payload has no more elements than its bytes

  lemma {:induction false} VarintsLength(vs: seq<nat>)
    ensures |EncodeVarints(vs)| >= |vs|
  {
    if vs != [] { VarintsLength(vs[1..]); }
  }

  lemma EntryLength(e: Entry)
    requires Proper(e)
    ensures var n := |EncodeField(EntryField(e))|;
      |FloatsIn(e)| <= n && |IntsIn(e)| <= n && (e.Raw? ==> |e.bytes| <= n)
  {
    if e.PackedInts? { VarintsLength(Unsigneds(e.values)); }
  }

  lemma {:induction false} EntriesLength(es: seq<Entry>, before: Option<Bytes>)
    requires AllProper(es)
    ensures var n := |EncodeEntries(es)|;
      |FloatsOf(es)| <= n && |IntsOf(es)| <= n &&
        (RawOf(es, before) == before || (RawOf(es, before).Some? && |RawOf(es, before).value| <= n))
  {
    if es != [] {
      EntryLength(es[0]);
      EntriesLength(es[1..], if es[0].Raw? then Some(es[0].bytes) else before);
    }
  }

  lemma SpelledCount(es: seq<Entry>, t: Tensor, text: Decoding)
    requires Spells(es, t, text) && Slice(EncodeEntries(es))
    ensures Count(t.payload) < TWO64
  {
    EntriesLength(es, None);
  }

  // ----- order and unknown fields

  /** Each kind of field spells the same on its own. */
  predicate SameFields(es: seq<Entry>, fs: seq<Entry>) {
    && DimsOf(es) == DimsOf(fs) && FloatsOf(es) == FloatsOf(fs) && IntsOf(es) == IntsOf(fs)
    && CodeOf(es, 0) == CodeOf(fs, 0) && NameOf(es, []) == NameOf(fs, []) && RawOf(es, None) == RawOf(fs, None)
  }

  /** However two writers interleave and pack the fields, the reader sees the same. */
  lemma OrderDoesNotMatter(es: seq<Entry>, fs: seq<Entry>, text: Decoding)
    requires AllProper(es) && AllProper(fs) && Slice(EncodeEntries(es)) && Slice(EncodeEntries(fs))
    requires SameFields(es, fs)
    ensures TensorFrom(EncodeEntries(es), 0, BLANK, text) == TensorFrom(EncodeEntries(fs), 0, BLANK, text)
  {
    EntriesRead(EncodeEntries(es), 0, es, BLANK, text, TensorFrom(EncodeEntries(es), 0, BLANK, text));
    EntriesRead(EncodeEntries(fs), 0, fs, BLANK, text, TensorFrom(EncodeEntries(fs), 0, BLANK, text));
    AfterBlank(es);
    AfterBlank(fs);
  }

  function WithoutOther(es: seq<Entry>): seq<Entry> {
    if es == [] then []
    else if es[0].Other? then WithoutOther(es[1..])
    else [es[0]] + WithoutOther(es[1..])
  }

  lemma {:induction false} OtherIsNothing(es: seq<Entry>, code: nat, name: Bytes, raw: Option<Bytes>)
    ensures var fs := WithoutOther(es);
      && DimsOf(es) == DimsOf(fs) && FloatsOf(es) == FloatsOf(fs) && IntsOf(es) == IntsOf(fs)
      && CodeOf(es, code) == CodeOf(fs, code) && NameOf(es, name) == NameOf(fs, name) &&
        RawOf(es, raw) == RawOf(fs, raw)
  {
    if es != [] {
      var e := es[0];
      OtherIsNothing(es[1..], if e.DataType? then e.code else code, if e.Name? then e.utf8 else name,
        if e.Raw? then Some(e.bytes) else raw);
      if !e.Other? {
        assert ([e] + WithoutOther(es[1..]))[1..] == WithoutOther(es[1..]);
      }
    }
  }

  lemma {:induction false} WithoutOtherFits(es: seq<Entry>)
    requires AllProper(es)
    ensures AllProper(WithoutOther(es)) && |EncodeEntries(WithoutOther(es))| <= |EncodeEntries(es)|
  {
    if es != [] {
      WithoutOtherFits(es[1..]);
      if !es[0].Other? {
        assert ([es[0]] + WithoutOther(es[1..]))[1..] == WithoutOther(es[1..]);
      }
    }
  }

  /** Unknown fields, wherever they stand, change nothing. */
  lemma UnknownFieldsDoNotMatter(es: seq<Entry>, text: Decoding)
    requires AllProper(es) && Slice(EncodeEntries(es))
    ensures AllProper(WithoutOther(es))
    ensures TensorFrom(EncodeEntries(es), 0, BLANK, text) == TensorFrom(EncodeEntries(WithoutOther(es)), 0, BLANK, text)
  {
    WithoutOtherFits(es);
    OtherIsNothing(es, 0, [], None);
    OrderDoesNotMatter(es, WithoutOther(es), text);
  }
}

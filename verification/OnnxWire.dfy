/** Initializers as they lie on the wire, byte by byte: what the reader makes of the tags,
    the type codes and the byte order, with every number written out. */
module OnnxWire {
  import opened Protobuf
  import opened OnnxTensor
  import opened OnnxInit
  import opened Wrappers

  // ----- varints

  lemma OneByte(bytes: Bytes, pos: nat)
    requires pos < |bytes| && bytes[pos] < 0x80
    ensures Varint(bytes, pos) == Ok((bytes[pos] as nat, pos + 1))
  {
    var s := bytes[pos..pos + 1];
    assert Stop(bytes, pos) == pos && s[0] == bytes[pos] && s[1..] == [];
    assert Base128(s) == bytes[pos];
  }

  /** The low seven bits come first. */
  lemma TwoBytes(low: Byte, high: Byte)
    requires low < 0x80 && high < 0x80
    ensures var r := Varint([low + 0x80, high], 0); r.Ok? && r.value.0 == low + 0x80 * high && r.value.1 == 2
  {
    var s: Bytes := [low + 0x80, high];
    assert Stop(s, 1) == 1 && Stop(s, 0) == 1;
    assert s[0..2] == s && s[1..] == [high] && [high][1..] == [];
    assert Base128([high]) == high;
  }

  // ----- short fields

  /** A tag and one byte of value. */
  predicate ByteAt(bytes: Bytes, pos: nat, tag: Byte, v: Byte) {
    pos + 2 <= |bytes| && bytes[pos] == tag < 0x80 && bytes[pos + 1] == v < 0x80
  }

  /** A tag, one byte of length, and so many bytes. */
  predicate BlobAt(bytes: Bytes, pos: nat, tag: Byte, blob: Bytes) {
    && pos + 2 + |blob| <= |bytes| && bytes[pos] == tag < 0x80
    && bytes[pos + 1] == |blob| < 0x80 && bytes[pos + 2..pos + 2 + |blob|] == blob
  }

  /** A tag and four bytes. */
  predicate FourAt(bytes: Bytes, pos: nat, tag: Byte, w: Bytes) {
    pos + 5 <= |bytes| && bytes[pos] == tag < 0x80 && bytes[pos + 1..pos + 5] == w
  }

  lemma VarintField(bytes: Bytes, pos: nat, tag: Byte, v: Byte)
    requires ByteAt(bytes, pos, tag, v) && tag % 8 == 0
    ensures NextField(bytes, pos) == Ok((Field(tag / 8, VarintWire(v)), pos + 2))
  {
    OneByte(bytes, pos);
    OneByte(bytes, pos + 1);
  }

  lemma BlobField(bytes: Bytes, pos: nat, tag: Byte, blob: Bytes)
    requires BlobAt(bytes, pos, tag, blob) && tag % 8 == 2 && Slice(bytes)
    ensures NextField(bytes, pos) == Ok((Field(tag / 8, Blob(blob)), pos + 2 + |blob|))
  {
    OneByte(bytes, pos);
    OneByte(bytes, pos + 1);
  }

  lemma FourByteField(bytes: Bytes, pos: nat, tag: Byte, w: Bytes)
    requires FourAt(bytes, pos, tag, w) && tag % 8 == 5
    ensures NextField(bytes, pos) == Ok((Field(tag / 8, Fixed32(w)), pos + 5))
  {
    OneByte(bytes, pos);
  }

  lemma EightByteField(bytes: Bytes, pos: nat, tag: Byte)
    requires pos + 9 <= |bytes| && bytes[pos] == tag < 0x80 && tag % 8 == 1
    ensures NextField(bytes, pos) == Ok((Field(tag / 8, Fixed64(bytes[pos + 1..pos + 9])), pos + 9))
  {
    OneByte(bytes, pos);
  }

  // ----- reading on

  /** `r` is what reading from `pos` on gives. */
  ghost predicate Reads(bytes: Bytes, pos: nat, st: State, text: Decoding, r: Result<Option<Tensor>>) {
    pos <= |bytes| && r == TensorFrom(bytes, pos, st, text)
  }

  lemma ReadOn(bytes: Bytes, pos: nat, f: Field, end: nat, st: State, next: State, text: Decoding,
      r: Result<Option<Tensor>>)
    requires pos < |bytes| && NextField(bytes, pos) == Ok((f, end)) && Apply(st, f) == Ok(next)
    requires Reads(bytes, pos, st, text, r)
    ensures Reads(bytes, end, next, text, r)
  {
    FieldStep(bytes, pos, f, end, st, next, text);
  }

  /** The tensor starts with one dimension, its type code and its name. */
  predicate Starts(bytes: Bytes, n: Byte, code: Byte, name: Bytes) {
    && ByteAt(bytes, 0, 0x08, n) && ByteAt(bytes, 2, 0x10, code)
    && BlobAt(bytes, 4, 0x42, name)
  }

  /** The state after that. */
  function Begun(n: Byte, code: Byte, name: Bytes): State {
    State([n], code, name, None, [], [])
  }

  lemma DimApplied(n: Byte)
    requires n < 0x80
    ensures Apply(BLANK, Field(0x08 / 8, VarintWire(n))) == Ok(Begun(n, 0, []))
    ensures Apply(BLANK, Field(0x0A / 8, Blob([n]))) == Ok(Begun(n, 0, []))
  {
    SmallDim(n);
    OneVarint(n);
    assert BLANK.dims + [n as int] == [n as int];
  }

  lemma CodeApplied(n: Byte, code: Byte)
    requires code < 0x80
    ensures Apply(Begun(n, 0, []), Field(0x10 / 8, VarintWire(code))) == Ok(Begun(n, code, []))
  {
  }

  lemma NameApplied(n: Byte, code: Byte, name: Bytes)
    ensures Apply(Begun(n, code, []), Field(0x42 / 8, Blob(name))) == Ok(Begun(n, code, name))
  {
  }

  /** Its three fields. */
  predicate StartFields(bytes: Bytes, n: Byte, code: Byte, name: Bytes) {
    && 6 + |name| <= |bytes| && NextField(bytes, 0) == Ok((Field(1, VarintWire(n)), 2))
    && NextField(bytes, 2) == Ok((Field(2, VarintWire(code)), 4))
    && NextField(bytes, 4) == Ok((Field(8, Blob(name)), 6 + |name|))
  }

  lemma FieldsOfStart(bytes: Bytes, n: Byte, code: Byte, name: Bytes)
    requires Starts(bytes, n, code, name) && Slice(bytes)
    ensures StartFields(bytes, n, code, name) && n < 0x80 && code < 0x80
  {
    VarintField(bytes, 0, 0x08, n);
    VarintField(bytes, 2, 0x10, code);
    BlobField(bytes, 4, 0x42, name);
  }

  lemma StartRead(bytes: Bytes, n: Byte, code: Byte, name: Bytes, text: Decoding, r: Result<Option<Tensor>>)
    requires StartFields(bytes, n, code, name) && n < 0x80 && code < 0x80 && Reads(bytes, 0, BLANK, text, r)
    ensures Reads(bytes, 6 + |name|, Begun(n, code, name), text, r)
  {
    DimApplied(n);
    ReadOn(bytes, 0, Field(1, VarintWire(n)), 2, BLANK, Begun(n, 0, []), text, r);
    CodeApplied(n, code);
    ReadOn(bytes, 2, Field(2, VarintWire(code)), 4, Begun(n, 0, []), Begun(n, code, []), text, r);
    NameApplied(n, code, name);
    ReadOn(bytes, 4, Field(8, Blob(name)), 6 + |name|, Begun(n, code, []), Begun(n, code, name), text, r);
  }

  /** A start and one field more. */
  lemma LastRead(bytes: Bytes, n: Byte, code: Byte, name: Bytes, f: Field, st: State, text: Decoding,
      r: Result<Option<Tensor>>)
    requires Starts(bytes, n, code, name) && Slice(bytes) && 6 + |name| < |bytes|
    requires NextField(bytes, 6 + |name|) == Ok((f, |bytes|)) && Apply(Begun(n, code, name), f) == Ok(st)
    requires Reads(bytes, 0, BLANK, text, r)
    ensures r == Finish(st, text)
  {
    FieldsOfStart(bytes, n, code, name);
    StartRead(bytes, n, code, name, text, r);
    ReadOn(bytes, 6 + |name|, f, |bytes|, Begun(n, code, name), st, text, r);
  }

  /** A tensor of one dimension, once its payload is known. */
  lemma FinishOne(st: State, n: Byte, name: Bytes, payload: Payload, text: Decoding)
    requires n < 0x80 && st.dims == [n as int] && st.name == name
    requires PayloadOf(st) == Ok(Some(payload)) && Count(payload) == n
    ensures Finish(st, text) == Ok(Some(Tensor(text(name), [n], payload)))
  {
    assert [n as nat][..0] == [];
    assert Product([n]) == Product([]) * n;
    assert Map(AsUsize, st.dims) == [n as nat];
  }

  /** A dimension that is negative as a signed 64-bit number counts as none. */
  lemma SignedDimension(v: nat)
    requires v < 0x1_0000_0000_0000_0000
    ensures AsUsize(AsI64(v)) == if v < 0x8000_0000_0000_0000 then v else 0
  {
  }

  /** The element count of a shape of any length is the product of its dimensions. */
  lemma Counts(dims: seq<nat>, d: nat)
    ensures Product([]) == 1 && Product(dims + [d]) == Product(dims) * d
  {
    assert (dims + [d])[..|dims|] == dims;
  }

  /** Of a longer varint an integer keeps the low 32 bits. */
  lemma LowBits(v: nat)
    ensures AsI32(v) == SignedWord(v % 0x1_0000_0000)
  {
  }

  // ----- raw bytes

  function LittleEndian(b0: nat, b1: nat, b2: nat, b3: nat): nat {
    b0 + 0x100 * b1 + 0x1_0000 * b2 + 0x100_0000 * b3
  }

  function SignedByte(b: int): int {
    if b < 0x80 then b else b - 0x100
  }

  function SignedWord(w: int): int {
    if w < 0x8000_0000 then w else w - 0x1_0000_0000
  }

  /** A start, and the elements as raw bytes under tag 0x4A. */
  predicate RawMessage(bytes: Bytes, n: Byte, code: Byte, name: Bytes, p: Bytes) {
    && Starts(bytes, n, code, name) && BlobAt(bytes, 6 + |name|, 0x4A, p)
    && |bytes| == 6 + |name| + 2 + |p|
  }

  lemma RawRead(bytes: Bytes, n: Byte, code: Byte, name: Bytes, p: Bytes, text: Decoding, r: Result<Option<Tensor>>)
    requires RawMessage(bytes, n, code, name, p) && Reads(bytes, 0, BLANK, text, r)
    ensures r == Finish(Begun(n, code, name).(raw := Some(p)), text)
  {
    BlobField(bytes, 6 + |name|, 0x4A, p);
    LastRead(bytes, n, code, name, Field(0x4A / 8, Blob(p)), Begun(n, code, name).(raw := Some(p)), text, r);
  }

  /** Type code 1: floats, each as four bytes, the lowest first. */
  lemma RawFloats(bytes: Bytes, n: Byte, name: Bytes, p: Bytes, text: Decoding) returns (bits: seq<nat>)
    requires RawMessage(bytes, n, 1, name, p) && |p| == 4 * n
    ensures TensorFrom(bytes, 0, BLANK, text) == Ok(Some(Tensor(text(name), [n], F32(bits))))
    ensures |bits| == n && forall i :: 0 <= i < n ==>
      bits[i] == LittleEndian(p[4 * i], p[4 * i + 1], p[4 * i + 2], p[4 * i + 3])
  {
    var st := Begun(n, 1, name).(raw := Some(p));
    bits := Words(p);
    WordsAt(p);
    FinishOne(st, n, name, F32(bits), text);
    RawRead(bytes, n, 1, name, p, text, TensorFrom(bytes, 0, BLANK, text));
  }

  /** Type code 3: signed bytes. */
  lemma RawBytes(bytes: Bytes, n: Byte, name: Bytes, p: Bytes, text: Decoding) returns (values: seq<int>)
    requires RawMessage(bytes, n, 3, name, p) && |p| == n
    ensures TensorFrom(bytes, 0, BLANK, text) == Ok(Some(Tensor(text(name), [n], I8(values))))
    ensures |values| == n && forall i :: 0 <= i < n ==> values[i] == SignedByte(p[i])
  {
    var st := Begun(n, 3, name).(raw := Some(p));
    values := SignedBytes(st, p);
    FinishOne(st, n, name, I8(values), text);
    RawRead(bytes, n, 3, name, p, text, TensorFrom(bytes, 0, BLANK, text));
  }

  lemma SignedBytes(st: State, p: Bytes) returns (values: seq<int>)
    requires st.dataType == 3 && st.raw == Some(p)
    ensures PayloadOf(st) == Ok(Some(I8(values)))
    ensures |values| == |p| && forall i :: 0 <= i < |p| ==> values[i] == SignedByte(p[i])
  {
    var r := PayloadOf(st);
    values := r.value.value.values;
  }

  /** Type code 6: signed words, the lowest byte first. */
  lemma RawInts(bytes: Bytes, n: Byte, name: Bytes, p: Bytes, text: Decoding) returns (values: seq<int>)
    requires RawMessage(bytes, n, 6, name, p) && |p| == 4 * n
    ensures TensorFrom(bytes, 0, BLANK, text) == Ok(Some(Tensor(text(name), [n], I32(values))))
    ensures |values| == n && forall i :: 0 <= i < n ==>
      values[i] == SignedWord(LittleEndian(p[4 * i], p[4 * i + 1], p[4 * i + 2], p[4 * i + 3]))
  {
    var st := Begun(n, 6, name).(raw := Some(p));
    values := SignedWords(p);
    FinishOne(st, n, name, I32(values), text);
    RawRead(bytes, n, 6, name, p, text, TensorFrom(bytes, 0, BLANK, text));
  }

  lemma SignedWords(p: Bytes) returns (values: seq<int>)
    requires |p| % 4 == 0
    ensures values == Map(AsI32, Words(p)) && |values| == |p| / 4
    ensures forall i :: 0 <= i < |p| / 4 ==>
      values[i] == SignedWord(LittleEndian(p[4 * i], p[4 * i + 1], p[4 * i + 2], p[4 * i + 3]))
  {
    values := Map(AsI32, Words(p));
    forall i | 0 <= i < |p| / 4
      ensures values[i] == SignedWord(LittleEndian(p[4 * i], p[4 * i + 1], p[4 * i + 2], p[4 * i + 3]))
    {
      WordAt(p, i);
      CastWord(p[4 * i], p[4 * i + 1], p[4 * i + 2], p[4 * i + 3]);
    }
  }

  lemma CastWord(b0: Byte, b1: Byte, b2: Byte, b3: Byte)
    ensures AsI32(LittleEndian(b0, b1, b2, b3)) == SignedWord(LittleEndian(b0, b1, b2, b3))
  {
  }

  lemma {:induction false} WordAt(p: Bytes, i: nat)
    requires |p| % 4 == 0 && i < |p| / 4
    ensures Words(p)[i] == LittleEndian(p[4 * i], p[4 * i + 1], p[4 * i + 2], p[4 * i + 3])
    decreases i
  {
    if i > 0 {
      var rest := p[4..];
      WordAt(rest, i - 1);
      assert rest[4 * (i - 1)] == p[4 * i] && rest[4 * (i - 1) + 1] == p[4 * i + 1];
      assert rest[4 * (i - 1) + 2] == p[4 * i + 2] && rest[4 * (i - 1) + 3] == p[4 * i + 3];
    }
  }

  lemma WordsAt(p: Bytes)
    requires |p| % 4 == 0
    ensures forall i :: 0 <= i < |p| / 4 ==>
      Words(p)[i] == LittleEndian(p[4 * i], p[4 * i + 1], p[4 * i + 2], p[4 * i + 3])
  {
    forall i | 0 <= i < |p| / 4
      ensures Words(p)[i] == LittleEndian(p[4 * i], p[4 * i + 1], p[4 * i + 2], p[4 * i + 3])
    {
      WordAt(p, i);
    }
  }

  /** Any other type code is not read. */
  lemma OtherCodes(bytes: Bytes, n: Byte, code: Byte, name: Bytes, p: Bytes, text: Decoding)
    requires RawMessage(bytes, n, code, name, p) && code != 1 && code != 3 && code != 6
    ensures TensorFrom(bytes, 0, BLANK, text) == Ok(None)
  {
    RawRead(bytes, n, code, name, p, text, TensorFrom(bytes, 0, BLANK, text));
  }

  // ----- typed fields

  /** After the start, tag 0x25 and four bytes: one float. */
  lemma OneFloat(bytes: Bytes, name: Bytes, w: Bytes, text: Decoding, r: Result<Option<Tensor>>)
    requires Starts(bytes, 1, 1, name) && |w| == 4 && Slice(bytes) && Reads(bytes, 0, BLANK, text, r)
    requires |bytes| == 6 + |name| + 5 && FourAt(bytes, 6 + |name|, 0x25, w)
    ensures r == Ok(Some(Tensor(text(name), [1], F32([LittleEndian(w[0], w[1], w[2], w[3])]))))
  {
    var st := Begun(1, 1, name).(floats := [Word(w)]);
    FloatApplied(name, w);
    FourByteField(bytes, 6 + |name|, 0x25, w);
    LastRead(bytes, 1, 1, name, Field(0x25 / 8, Fixed32(w)), st, text, r);
    FinishOne(st, 1, name, F32([Word(w)]), text);
  }

  /** Tag 0x22, the length 4 and four bytes: the same, packed. */
  lemma PackedFloat(bytes: Bytes, name: Bytes, w: Bytes, text: Decoding, r: Result<Option<Tensor>>)
    requires Starts(bytes, 1, 1, name) && |w| == 4 && Slice(bytes) && Reads(bytes, 0, BLANK, text, r)
    requires |bytes| == 6 + |name| + 6 && BlobAt(bytes, 6 + |name|, 0x22, w)
    ensures r == Ok(Some(Tensor(text(name), [1], F32([LittleEndian(w[0], w[1], w[2], w[3])]))))
  {
    var st := Begun(1, 1, name).(floats := [Word(w)]);
    FloatApplied(name, w);
    BlobField(bytes, 6 + |name|, 0x22, w);
    LastRead(bytes, 1, 1, name, Field(0x22 / 8, Blob(w)), st, text, r);
    FinishOne(st, 1, name, F32([Word(w)]), text);
  }

  lemma FloatApplied(name: Bytes, w: Bytes)
    requires |w| == 4
    ensures var st := Begun(1, 1, name).(floats := [Word(w)]);
      && Apply(Begun(1, 1, name), Field(0x25 / 8, Fixed32(w))) == Ok(st)
      && Apply(Begun(1, 1, name), Field(0x22 / 8, Blob(w))) == Ok(st)
  {
    assert w[..4] == w && w[4..] == [];
    assert Words(w) == [Word(w)];
    assert Begun(1, 1, name).floats + [Word(w)] == [Word(w)];
  }

  /** After the start, tag 0x28 and a byte: one integer, which code 6 keeps as a word and
      code 3 as a byte. */
  lemma OneInt(bytes: Bytes, code: Byte, name: Bytes, v: Byte, text: Decoding, r: Result<Option<Tensor>>)
    requires Starts(bytes, 1, code, name) && (code == 3 || code == 6) && Reads(bytes, 0, BLANK, text, r)
    requires |bytes| == 6 + |name| + 2 && ByteAt(bytes, 6 + |name|, 0x28, v)
    ensures r == Ok(Some(Tensor(text(name), [1], if code == 3 then I8([v]) else I32([v]))))
  {
    var st := Begun(1, code, name).(ints := [v]);
    IntApplied(code, name, v);
    VarintField(bytes, 6 + |name|, 0x28, v);
    LastRead(bytes, 1, code, name, Field(0x28 / 8, VarintWire(v)), st, text, r);
    FinishOne(st, 1, name, if code == 3 then I8([v]) else I32([v]), text);
  }

  /** Tag 0x2A, the length 1 and a byte: the same, packed. */
  lemma PackedInt(bytes: Bytes, code: Byte, name: Bytes, v: Byte, text: Decoding, r: Result<Option<Tensor>>)
    requires Starts(bytes, 1, code, name) && (code == 3 || code == 6) && Reads(bytes, 0, BLANK, text, r)
    requires v < 0x80 && |bytes| == 6 + |name| + 3 && BlobAt(bytes, 6 + |name|, 0x2A, [v])
    ensures r == Ok(Some(Tensor(text(name), [1], if code == 3 then I8([v]) else I32([v]))))
  {
    var st := Begun(1, code, name).(ints := [v]);
    IntApplied(code, name, v);
    BlobField(bytes, 6 + |name|, 0x2A, [v]);
    FinishOne(st, 1, name, if code == 3 then I8([v]) else I32([v]), text);
    LastRead(bytes, 1, code, name, Field(5, Blob([v])), st, text, r);
  }

  lemma IntApplied(code: Byte, name: Bytes, v: Byte)
    requires v < 0x80 && (code == 3 || code == 6)
    ensures var st := Begun(1, code, name).(ints := [v]);
      && Apply(Begun(1, code, name), Field(0x28 / 8, VarintWire(v))) == Ok(st)
      && Apply(Begun(1, code, name), Field(0x2A / 8, Blob([v]))) == Ok(st)
      && PayloadOf(st) == Ok(Some(if code == 3 then I8([v]) else I32([v])))
  {
    OneVarint(v);
  }

  lemma OneVarint(v: Byte)
    requires v < 0x80
    ensures Varints([v], 0) == Ok([v as nat]) && AsI32(v) == v
    ensures Map(AsI8, [v as int]) == [v as int] && [] + [v as int] == [v as int]
    ensures Map(AsI32, [v as nat]) == [v as int] && Map(AsI64, [v as nat]) == [v as int]
  {
    OneByte([v], 0);
    assert Varints([v], 1) == Ok([]);
    assert [v as nat] + [] == [v as nat];
  }

  /** Tag 0x0A, the length 1 and a byte: a dimension, as under tag 0x08. */
  lemma PackedDimension(bytes: Bytes, n: Byte, text: Decoding, r: Result<Option<Tensor>>)
    requires n < 0x80 && BlobAt(bytes, 0, 0x0A, [n]) && Slice(bytes) && Reads(bytes, 0, BLANK, text, r)
    ensures Reads(bytes, 3, Begun(n, 0, []), text, r)
  {
    BlobField(bytes, 0, 0x0A, [n]);
    DimApplied(n);
    ReadOn(bytes, 0, Field(0x0A / 8, Blob([n])), 3, BLANK, Begun(n, 0, []), text, r);
  }

  // ----- the model around it

  /** Tag 0x3A holds the graph. */
  lemma OneGraph(model: Bytes, graph: Bytes)
    requires |model| == |graph| + 2 && BlobAt(model, 0, 0x3A, graph)
    ensures GraphFrom(model, 0, None) == Ok(Some(graph))
  {
    BlobField(model, 0, 0x3A, graph);
    assert GraphFrom(model, |model|, Some(graph)) == Ok(Some(graph));
  }

  /** Tag 0x2A in the graph holds a tensor. */
  lemma TensorTag(graph: Bytes, t: Bytes)
    requires |graph| == |t| + 2 && BlobAt(graph, 0, 0x2A, t)
    ensures NextField(graph, 0) == Ok((Field(5, Blob(t)), |graph|))
  {
    BlobField(graph, 0, 0x2A, t);
  }

  lemma OneTensor(graph: Bytes, t: Bytes, read: Option<Tensor>, text: Decoding, r: Result<Tensors>)
    requires |graph| > 0 && NextField(graph, 0) == Ok((Field(5, Blob(t)), |graph|))
    requires Reads(t, 0, BLANK, text, Ok(read)) && r == TensorsFrom(graph, 0, map[], text)
    ensures r == Ok(Insert(map[], read))
  {
    InitializerStep(graph, 0, t, |graph|, read, map[], text, r);
  }

  lemma InitializersOf(model: Bytes, graph: Bytes, out: Tensors, text: Decoding, tensors: Result<Tensors>,
      r: Result<Tensors>)
    requires GraphFrom(model, 0, None) == Ok(Some(graph)) && tensors == TensorsFrom(graph, 0, map[], text)
    requires tensors == Ok(out) && out != map[] && r == Initializers(model, text)
    ensures r == Ok(out)
  {
  }

  /** A model of one tensor is read as that tensor, under its name. */
  lemma OneInitializer(model: Bytes, graph: Bytes, t: Bytes, tensor: Tensor, text: Decoding, tensors: Result<Tensors>,
      r: Result<Tensors>)
    requires |model| == |graph| + 2 && BlobAt(model, 0, 0x3A, graph)
    requires |graph| == |t| + 2 && BlobAt(graph, 0, 0x2A, t) && Reads(t, 0, BLANK, text, Ok(Some(tensor)))
    requires tensors == TensorsFrom(graph, 0, map[], text) && r == Initializers(model, text)
    ensures r == Ok(map[tensor.name := tensor])
  {
    TensorTag(graph, t);
    OneTensor(graph, t, Some(tensor), text, tensors);
    OneGraph(model, graph);
    var out: Tensors := map[tensor.name := tensor];
    assert tensor.name in out;
    InitializersOf(model, graph, out, text, tensors, r);
  }

  /** An INT8 weight through the whole reader: four signed bytes. */
  lemma Int8Model(model: Bytes, text: Decoding, r: Result<Tensors>)
    requires model == [0x3A, 15, 0x2A, 13, 0x08, 4, 0x10, 3, 0x42, 1, 0x77, 0x4A, 4, 1, 2, 3, 0xFF]
    requires r == Initializers(model, text)
    ensures r == Ok(map[text([0x77]) := Tensor(text([0x77]), [4], I8([1, 2, 3, -1]))])
  {
    var graph, t := model[2..], model[4..];
    Int8Tensor(t, text);
    OneInitializer(model, graph, t, Tensor(text([0x77]), [4], I8([1, 2, 3, -1])), text,
      TensorsFrom(graph, 0, map[], text), r);
  }

  lemma Int8Tensor(t: Bytes, text: Decoding)
    requires t == [0x08, 4, 0x10, 3, 0x42, 1, 0x77, 0x4A, 4, 1, 2, 3, 0xFF]
    ensures Reads(t, 0, BLANK, text, Ok(Some(Tensor(text([0x77]), [4], I8([1, 2, 3, -1])))))
  {
    assert t[6..7] == [0x77] && t[9..13] == [1, 2, 3, 0xFF];
    var values := RawBytes(t, 4, [0x77], [1, 2, 3, 0xFF], text);
    assert values == [1, 2, 3, -1];
  }
}

/** Protocol Buffers wire format: varints and length-delimited fields, read from a
    byte sequence at a position and written by the encoding guide. */
module Protobuf {

  type Byte = b: nat | b < 256

  type Bytes = seq<Byte>

  const TWO64: nat := 0x1_0000_0000_0000_0000

  datatype Error =
    | TruncatedVarint
    | VarintOverflow
    | LengthOverflow
    | TruncatedField
    | UnsupportedWire
    | NotMultipleOfFour
    | WrongCount
    | NoGraph
    | NoInitializers

  datatype Result<T> = Ok(value: T) | Err(error: Error)

  function Pow2(n: nat): (p: nat)
    ensures p >= 1
  {
    if n == 0 then 1 else 2 * Pow2(n - 1)
  }

  /** A left shift, before the result is cut to 64 bits. */
  function Shl(g: nat, n: nat): nat {
    g * Pow2(n)
  }

  /** Bitwise or. */
  function Or(x: nat, y: nat): nat {
    if x == 0 then y
    else if y == 0 then x
    else 2 * Or(x / 2, y / 2) + if x % 2 == 1 || y % 2 == 1 then 1 else 0
  }

  /** Or-ing in a number shifted above all bits of the other adds it. */
  lemma {:induction false} OrAbove(x: nat, g: nat, n: nat)
    requires x < Pow2(n)
    ensures Or(x, Shl(g, n)) == x + Shl(g, n)
  {
    if n > 0 {
      OrAbove(x / 2, g, n - 1);
      ShlTwice(g, n);
    }
  }

  lemma ShlTwice(g: nat, n: nat)
    requires n > 0
    ensures Shl(g, n) == 2 * Shl(g, n - 1)
  {
    assert g * (2 * Pow2(n - 1)) == 2 * (g * Pow2(n - 1));
  }

  // ----- varints

  /** The low seven bits of a byte. */
  function Group(b: Byte): (g: nat)
    ensures g < 128
  {
    b % 128
  }

  /** What of a number fits 64 bits. */
  function Low64(n: nat): (r: nat)
    ensures r < TWO64 && (n < TWO64 ==> r == n)
  {
    n % TWO64
  }

  /** The number in the low seven bits of each byte, least significant group first. */
  function Base128(s: Bytes): nat {
    if s == [] then 0 else Group(s[0]) + 128 * Base128(s[1..])
  }

  /** The first byte from `pos` on without the continuation bit, or the end. */
  function Stop(bytes: Bytes, pos: nat): (k: nat)
    requires pos <= |bytes|
    ensures pos <= k <= |bytes|
    ensures forall j :: pos <= j < k ==> bytes[j] >= 128
    ensures k < |bytes| ==> bytes[k] < 128
    decreases |bytes| - pos
  {
    if pos == |bytes| || bytes[pos] < 128 then pos else Stop(bytes, pos + 1)
  }

  /** A varint is at most ten bytes, and its value is taken modulo 2^64. */
  function Varint(bytes: Bytes, pos: nat): (r: Result<(nat, nat)>)
    requires pos <= |bytes|
    ensures r.Ok? ==> r.value.0 < TWO64 && pos < r.value.1 <= |bytes|
  {
    var k := Stop(bytes, pos);
    if k - pos >= 10 then Err(VarintOverflow)
    else if k == |bytes| then Err(TruncatedVarint)
    else Ok((Low64(Base128(bytes[pos..k + 1])), k + 1))
  }

  lemma {:induction false} AppendGroup(s: Bytes, b: Byte)
    ensures Base128(s + [b]) == Base128(s) + Shl(Group(b), 7 * |s|)
  {
    if s == [] {
      assert [b][1..] == [];
    } else {
      AppendGroup(s[1..], b);
      assert (s + [b])[1..] == s[1..] + [b];
      NextShift(|s| - 1);
      Regroup(Group(b), Pow2(7 * (|s| - 1)));
    }
  }

  lemma Regroup(g: nat, p: nat)
    ensures 128 * (g * p) == g * (128 * p)
  {
  }

  lemma NextShift(n: nat)
    ensures Pow2(7 * n + 7) == 128 * Pow2(7 * n)
  {
    var m := 7 * n;
    assert Pow2(m + 2) == 4 * Pow2(m);
    assert Pow2(m + 4) == 4 * Pow2(m + 2);
    assert Pow2(m + 6) == 4 * Pow2(m + 4);
  }

  lemma {:induction false} GroupsFit(s: Bytes)
    ensures Base128(s) < Pow2(7 * |s|)
  {
    if s != [] {
      GroupsFit(s[1..]);
      NextShift(|s| - 1);
    }
  }

  lemma {:induction false} PowMonotone(a: nat, b: nat)
    requires a <= b
    ensures Pow2(a) <= Pow2(b)
    decreases b
  {
    if a < b { PowMonotone(a, b - 1); }
  }

  lemma PowValues()
    ensures Pow2(56) == 0x100_0000_0000_0000 && Pow2(63) == 0x8000_0000_0000_0000 && Pow2(70) == 64 * TWO64
  {
    NextShift(0);
    NextShift(1);
    NextShift(2);
    NextShift(3);
    NextShift(4);
    NextShift(5);
    NextShift(6);
    NextShift(7);
    NextShift(8);
    NextShift(9);
  }

  /** What of a shifted group fits 64 bits is itself a group shifted as far, and adding it
      loses only what the sum loses anyway. */
  lemma ShiftInto(n: nat, low: nat, group: nat) returns (kept: nat)
    requires n <= 9 && low < Pow2(7 * n) && group < 128
    ensures Low64(Shl(group, 7 * n)) == Shl(kept, 7 * n)
    ensures low + Low64(Shl(group, 7 * n)) == Low64(low + Shl(group, 7 * n))
  {
    PowValues();
    if n == 9 {
      kept := group % 2;
      TopBit(low, group);
    } else {
      kept := group;
      GroupFits(n, low, group);
    }
  }

  lemma GroupFits(n: nat, low: nat, group: nat)
    requires n <= 8 && low < Pow2(7 * n) && group < 128
    ensures low + Shl(group, 7 * n) < TWO64
  {
    PowValues();
    PowMonotone(7 * n, 56);
    Times(group, 127, Pow2(7 * n), Pow2(56));
  }

  lemma Times(a: nat, b: nat, p: nat, q: nat)
    requires a <= b && p <= q
    ensures a * p <= b * q
  {
  }

  lemma TopBit(low: nat, group: nat)
    requires low < 0x8000_0000_0000_0000 && group < 128
    ensures Low64(group * 0x8000_0000_0000_0000) == group % 2 * 0x8000_0000_0000_0000
    ensures low + Low64(group * 0x8000_0000_0000_0000) == Low64(low + group * 0x8000_0000_0000_0000)
  {
    var half, bit := group / 2, group % 2;
    assert group * 0x8000_0000_0000_0000 == half * TWO64 + bit * 0x8000_0000_0000_0000;
    Remainder(half, bit * 0x8000_0000_0000_0000);
    Remainder(half, low + bit * 0x8000_0000_0000_0000);
  }

  lemma Remainder(q: nat, r: nat)
    requires r < TWO64
    ensures Low64(q * TWO64 + r) == r
  {
  }

  lemma Narrow(s: Bytes)
    requires |s| <= 9
    ensures Base128(s) < TWO64
  {
    GroupsFit(s);
    PowMonotone(7 * |s|, 63);
    PowValues();
  }

  lemma OrGroup(n: nat, low: nat, group: nat, sum: nat)
    requires n <= 9 && low < Pow2(7 * n) && group < 128 && sum == low + Shl(group, 7 * n)
    ensures Or(low, Low64(Shl(group, 7 * n))) == Low64(sum)
  {
    var kept := ShiftInto(n, low, group);
    OrAbove(low, kept, 7 * n);
  }

  /** Or-ing the next group in above the bits read so far reads one byte more. */
  lemma GroupRead(bytes: Bytes, start: nat, pos: nat)
    requires start <= pos < |bytes| && pos - start <= 9
    ensures Or(Low64(Base128(bytes[start..pos])), Low64(Shl(Group(bytes[pos]), 7 * (pos - start))))
      == Low64(Base128(bytes[start..pos + 1]))
  {
    var before, b := bytes[start..pos], bytes[pos];
    assert bytes[start..pos + 1] == before + [b];
    AppendGroup(before, b);
    GroupsFit(before);
    Narrow(before);
    OrGroup(|before|, Base128(before), Group(b), Base128(before + [b]));
  }

  /** Read one varint, or-ing each group in above the bits read so far. */
  method ReadVarint(bytes: Bytes, start: nat) returns (r: Result<(nat, nat)>)
    requires start <= |bytes|
    ensures r == Varint(bytes, start)
  {
    var pos, result, shift := start, 0, 0;
    while true
      invariant start <= pos <= |bytes| && shift == 7 * (pos - start) <= 63
      invariant Stop(bytes, start) == Stop(bytes, pos)
      invariant result == Low64(Base128(bytes[start..pos]))
      decreases |bytes| - pos
    {
      if pos >= |bytes| {
        return Err(TruncatedVarint);
      }
      var b := bytes[pos];
      GroupRead(bytes, start, pos);
      pos := pos + 1;
      result := Or(result, Low64(Shl(Group(b), shift)));
      if b < 128 {
        return Ok((result, pos));
      }
      shift := shift + 7;
      if shift > 63 {
        return Err(VarintOverflow);
      }
    }
  }

  function EncodeVarint(v: nat): (s: Bytes)
    ensures |s| >= 1
  {
    if v < 128 then [v] else [v % 128 + 128] + EncodeVarint(v / 128)
  }

  lemma {:induction false} EncodedVarint(v: nat)
    ensures Base128(EncodeVarint(v)) == v && Terminated(EncodeVarint(v))
  {
    if v < 128 {
      assert [v][1..] == [];
    } else {
      EncodedVarint(v / 128);
      SplitGroup(v);
      PrependGroup(v % 128 + 128, EncodeVarint(v / 128));
    }
  }

  lemma SplitGroup(v: nat)
    ensures Group(v % 128 + 128) == v % 128 && v == v % 128 + 128 * (v / 128)
  {
  }

  lemma PrependGroup(b: Byte, s: Bytes)
    requires b >= 128
    ensures Base128([b] + s) == Group(b) + 128 * Base128(s)
    ensures Terminated(s) ==> Terminated([b] + s)
  {
    assert ([b] + s)[1..] == s;
  }

  /** The last byte, and no other, lacks the continuation bit. */
  predicate Terminated(s: Bytes) {
    s != [] && s[|s| - 1] < 128 && forall j :: 0 <= j < |s| - 1 ==> s[j] >= 128
  }

  lemma {:induction false} EncodedLength(v: nat, n: nat)
    requires v < Pow2(7 * n) && n >= 1
    ensures |EncodeVarint(v)| <= n
    decreases n
  {
    if v >= 128 {
      assert Pow2(7) == 128;
      NextShift(n - 1);
      EncodedLength(v / 128, n - 1);
    }
  }

  /** `part` lies in `bytes` at `pos`. */
  predicate At(bytes: Bytes, pos: nat, part: Bytes) {
    pos + |part| <= |bytes| && bytes[pos..pos + |part|] == part
  }

  lemma AtSplit(bytes: Bytes, pos: nat, a: Bytes, b: Bytes)
    requires At(bytes, pos, a + b)
    ensures At(bytes, pos, a) && At(bytes, pos + |a|, b)
  {
    assert bytes[pos..pos + |a|] == (a + b)[..|a|];
    assert bytes[pos + |a|..pos + |a| + |b|] == (a + b)[|a|..];
  }

  lemma {:induction false} StopAt(bytes: Bytes, pos: nat, s: Bytes)
    requires At(bytes, pos, s) && Terminated(s)
    ensures Stop(bytes, pos) == pos + |s| - 1
    decreases |s|
  {
    assert bytes[pos..pos + |s|][0] == s[0];
    if |s| > 1 {
      assert s == [s[0]] + s[1..];
      AtSplit(bytes, pos, [s[0]], s[1..]);
      StopAt(bytes, pos + 1, s[1..]);
    }
  }

  lemma ShortEnough(v: nat)
    requires v < TWO64
    ensures |EncodeVarint(v)| <= 10
  {
    PowValues();
    EncodedLength(v, 10);
  }

  /** Every 64-bit number is read back from its encoding, wherever that stands. */
  lemma VarintRoundTrip(bytes: Bytes, pos: nat, v: nat)
    requires v < TWO64 && At(bytes, pos, EncodeVarint(v))
    ensures Varint(bytes, pos) == Ok((v, pos + |EncodeVarint(v)|))
  {
    ShortEnough(v);
    EncodedVarint(v);
    StopAt(bytes, pos, EncodeVarint(v));
  }

  // ----- fields

  datatype Wire =
    | VarintWire(v: nat)
    | Fixed64(eight: Bytes)
    | Blob(blob: Bytes)
    | Fixed32(four: Bytes)

  datatype Field = Field(num: nat, wire: Wire)

  /** Slices are shorter than 2^63 bytes. */
  predicate Slice(bytes: Bytes) {
    |bytes| < 0x8000_0000_0000_0000
  }

  function ReadLenBlob(bytes: Bytes, pos: nat): (r: Result<(Bytes, nat)>)
    requires pos <= |bytes|
    ensures r.Ok? ==> pos < r.value.1 <= |bytes| && |r.value.0| < r.value.1 - pos
    ensures r.Ok? ==> At(bytes, r.value.1 - |r.value.0|, r.value.0)
  {
    var len := Varint(bytes, pos);
    if len.Err? then Err(len.error)
    else
      var end := len.value.1 + len.value.0;
      if end >= TWO64 then Err(LengthOverflow)
      else if end > |bytes| then Err(TruncatedField)
      else Ok((bytes[len.value.1..end], end))
  }

  /** The value of a field of the given wire type. */
  function ReadWire(bytes: Bytes, pos: nat, wire: nat): (r: Result<(Wire, nat)>)
    requires pos <= |bytes|
    ensures r.Ok? ==> pos < r.value.1 <= |bytes|
  {
    match wire
    case 0 =>
      var r := Varint(bytes, pos);
      if r.Err? then Err(r.error) else Ok((VarintWire(r.value.0), r.value.1))
    case 1 =>
      if pos + 8 > |bytes| then Err(TruncatedField) else Ok((Fixed64(bytes[pos..pos + 8]), pos + 8))
    case 2 =>
      var r := ReadLenBlob(bytes, pos);
      if r.Err? then Err(r.error) else Ok((Blob(r.value.0), r.value.1))
    case 5 =>
      if pos + 4 > |bytes| then Err(TruncatedField) else Ok((Fixed32(bytes[pos..pos + 4]), pos + 4))
    case _ => Err(UnsupportedWire)
  }

  /** Skipping a value moves exactly as far as reading it, or fails the same way. */
  function SkipValue(bytes: Bytes, pos: nat, wire: nat): (r: Result<nat>)
    requires pos <= |bytes|
    ensures var read := ReadWire(bytes, pos, wire);
      r == if read.Ok? then Ok(read.value.1) else Err(read.error)
  {
    match wire
    case 0 =>
      var r := Varint(bytes, pos);
      if r.Err? then Err(r.error) else Ok(r.value.1)
    case 1 =>
      if pos + 8 > |bytes| then Err(TruncatedField) else Ok(pos + 8)
    case 2 =>
      var r := ReadLenBlob(bytes, pos);
      if r.Err? then Err(r.error) else Ok(r.value.1)
    case 5 =>
      if pos + 4 > |bytes| then Err(TruncatedField) else Ok(pos + 4)
    case _ => Err(UnsupportedWire)
  }

  /** One field, key and value. */
  function NextField(bytes: Bytes, pos: nat): (r: Result<(Field, nat)>)
    requires pos <= |bytes|
    ensures r.Ok? ==> pos < r.value.1 <= |bytes|
  {
    var key := Varint(bytes, pos);
    if key.Err? then Err(key.error)
    else
      var w := ReadWire(bytes, key.value.1, key.value.0 % 8);
      if w.Err? then Err(w.error) else Ok((Field(key.value.0 / 8, w.value.0), w.value.1))
  }

  function WireType(w: Wire): nat {
    match w
    case VarintWire(_) => 0
    case Fixed64(_) => 1
    case Blob(_) => 2
    case Fixed32(_) => 5
  }

  predicate Writable(f: Field) {
    && f.num * 8 + 7 < TWO64
    && match f.wire
       case VarintWire(v) => v < TWO64
       case Fixed64(eight) => |eight| == 8
       case Blob(blob) => Slice(blob)
       case Fixed32(four) => |four| == 4
  }

  function EncodeWire(w: Wire): Bytes {
    match w
    case VarintWire(v) => EncodeVarint(v)
    case Fixed64(eight) => eight
    case Blob(blob) => EncodeVarint(|blob|) + blob
    case Fixed32(four) => four
  }

  function EncodeField(f: Field): (s: Bytes)
    ensures |s| >= 1
  {
    EncodeVarint(f.num * 8 + WireType(f.wire)) + EncodeWire(f.wire)
  }

  lemma FieldRoundTrip(bytes: Bytes, pos: nat, f: Field)
    requires Writable(f) && Slice(bytes) && At(bytes, pos, EncodeField(f))
    ensures NextField(bytes, pos) == Ok((f, pos + |EncodeField(f)|))
  {
    var v := f.num * 8 + WireType(f.wire);
    LeadingVarint(bytes, pos, v, EncodeWire(f.wire));
    SplitKey(f.num, WireType(f.wire));
    WireRoundTrip(bytes, pos + |EncodeVarint(v)|, f);
    NextStep(bytes, pos, v, pos + |EncodeVarint(v)|, f.wire, pos + |EncodeField(f)|);
  }

  lemma NextStep(bytes: Bytes, pos: nat, key: nat, mid: nat, w: Wire, end: nat)
    requires pos < mid <= |bytes| && Varint(bytes, pos) == Ok((key, mid))
    requires ReadWire(bytes, mid, key % 8) == Ok((w, end))
    ensures NextField(bytes, pos) == Ok((Field(key / 8, w), end))
  {
  }

  lemma LeadingVarint(bytes: Bytes, pos: nat, v: nat, rest: Bytes)
    requires v < TWO64 && At(bytes, pos, EncodeVarint(v) + rest)
    ensures var end := pos + |EncodeVarint(v)|;
      Varint(bytes, pos) == Ok((v, end)) && At(bytes, end, rest)
  {
    AtSplit(bytes, pos, EncodeVarint(v), rest);
    VarintRoundTrip(bytes, pos, v);
  }

  lemma SplitKey(num: nat, wire: nat)
    requires wire < 8
    ensures (num * 8 + wire) / 8 == num && (num * 8 + wire) % 8 == wire
  {
  }

  lemma WireRoundTrip(bytes: Bytes, pos: nat, f: Field)
    requires Writable(f) && Slice(bytes) && At(bytes, pos, EncodeWire(f.wire))
    ensures ReadWire(bytes, pos, WireType(f.wire)) == Ok((f.wire, pos + |EncodeWire(f.wire)|))
  {
    match f.wire
    case VarintWire(v) => VarintRoundTrip(bytes, pos, v);
    case Fixed64(eight) =>
    case Blob(blob) =>
      LeadingVarint(bytes, pos, |blob|, blob);
    case Fixed32(four) =>
  }

  // ----- packed varints

  /** All the varints of a blob, one after the other. */
  function Varints(blob: Bytes, i: nat): Result<seq<nat>>
    requires i <= |blob|
    decreases |blob| - i
  {
    if i == |blob| then Ok([])
    else
      var one := Varint(blob, i);
      if one.Err? then Err(one.error)
      else
        var rest := Varints(blob, one.value.1);
        if rest.Err? then rest else Ok([one.value.0] + rest.value)
  }

  /** What `Varints` gives when `out` stands in front. */
  function Prepend(out: seq<nat>, rest: Result<seq<nat>>): Result<seq<nat>> {
    if rest.Err? then rest else Ok(out + rest.value)
  }

  lemma PrependNothing(rest: Result<seq<nat>>)
    ensures Prepend([], rest) == rest
  {
    if rest.Ok? { assert [] + rest.value == rest.value; }
  }

  method ReadVarints(blob: Bytes) returns (r: Result<seq<nat>>)
    ensures r == Varints(blob, 0)
  {
    var i, out := 0, [];
    PrependNothing(Varints(blob, 0));
    while i < |blob|
      invariant i <= |blob|
      invariant Prepend(out, Varints(blob, i)) == Varints(blob, 0)
      decreases |blob| - i
    {
      var one := ReadVarint(blob, i);
      if one.Err? {
        return Err(one.error);
      }
      ghost var rest := Varints(blob, one.value.1);
      if rest.Ok? {
        assert out + ([one.value.0] + rest.value) == (out + [one.value.0]) + rest.value;
      }
      out := out + [one.value.0];
      i := one.value.1;
    }
    assert out + [] == out;
    r := Ok(out);
  }

  /** All of them 64-bit numbers. */
  predicate Numbers(vs: seq<nat>) {
    forall k :: 0 <= k < |vs| ==> vs[k] < TWO64
  }

  function EncodeVarints(vs: seq<nat>): Bytes {
    if vs == [] then [] else EncodeVarint(vs[0]) + EncodeVarints(vs[1..])
  }

  lemma {:induction false} VarintsRoundTrip(blob: Bytes, i: nat, vs: seq<nat>)
    requires At(blob, i, EncodeVarints(vs)) && i + |EncodeVarints(vs)| == |blob|
    requires Numbers(vs)
    ensures Varints(blob, i) == Ok(vs)
    decreases |vs|
  {
    if vs != [] {
      var end := i + |EncodeVarint(vs[0])|;
      LeadingVarint(blob, i, vs[0], EncodeVarints(vs[1..]));
      VarintsRoundTrip(blob, end, vs[1..]);
      VarintsStep(blob, i, vs, end);
    }
  }

  lemma VarintsStep(blob: Bytes, i: nat, vs: seq<nat>, end: nat)
    requires i < end <= |blob| && vs != [] && Varint(blob, i) == Ok((vs[0], end)) && Varints(blob, end) == Ok(vs[1..])
    ensures Varints(blob, i) == Ok(vs)
  {
    assert [vs[0]] + vs[1..] == vs;
  }
}

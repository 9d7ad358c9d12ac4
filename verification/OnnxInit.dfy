/** All the initializers of an ONNX model: the last graph of ModelProto, and the
    tensors of its GraphProto by name. Nothing else of the model is read. */
module OnnxInit {
  import opened Protobuf
  import opened OnnxTensor
  import opened Wrappers

  predicate GraphField(f: Field) {
    f.num == 7 && f.wire.Blob?
  }

  predicate InitializerField(f: Field) {
    f.num == 5 && f.wire.Blob?
  }

  /** The last graph among the fields from `pos` on, or the one seen before. */
  function GraphFrom(bytes: Bytes, pos: nat, graph: Option<Bytes>): Result<Option<Bytes>>
    requires pos <= |bytes|
    decreases |bytes| - pos
  {
    if pos == |bytes| then Ok(graph)
    else
      var f := NextField(bytes, pos);
      if f.Err? then Err(f.error)
      else GraphFrom(bytes, f.value.1, if GraphField(f.value.0) then Some(f.value.0.wire.blob) else graph)
  }

  type Tensors = map<string, Tensor>

  function Insert(out: Tensors, t: Option<Tensor>): Tensors {
    if t.None? then out else out[t.value.name := t.value]
  }

  /** The tensors from `pos` on, added to those before. */
  function TensorsFrom(graph: Bytes, pos: nat, out: Tensors, text: Decoding): Result<Tensors>
    requires pos <= |graph|
    decreases |graph| - pos
  {
    if pos == |graph| then Ok(out)
    else
      var f := NextField(graph, pos);
      if f.Err? then Err(f.error)
      else if !InitializerField(f.value.0) then TensorsFrom(graph, f.value.1, out, text)
      else
        var t := TensorFrom(f.value.0.wire.blob, 0, BLANK, text);
        if t.Err? then Err(t.error) else TensorsFrom(graph, f.value.1, Insert(out, t.value), text)
  }

  function Initializers(bytes: Bytes, text: Decoding): Result<Tensors> {
    var graph := GraphFrom(bytes, 0, None);
    if graph.Err? then Err(graph.error)
    else if graph.value.None? then Err(NoGraph)
    else
      var out := TensorsFrom(graph.value.value, 0, map[], text);
      if out.Ok? && out.value == map[] then Err(NoInitializers) else out
  }

  method FindGraph(bytes: Bytes) returns (graph: Result<Option<Bytes>>)
    ensures graph == GraphFrom(bytes, 0, None)
  {
    var pos, found := 0, None;
    while pos < |bytes|
      invariant pos <= |bytes| && GraphFrom(bytes, pos, found) == GraphFrom(bytes, 0, None)
      decreases |bytes| - pos
    {
      var key := ReadVarint(bytes, pos);
      if key.Err? {
        return Err(key.error);
      }
      if key.value.0 / 8 == 7 && key.value.0 % 8 == 2 {
        var blob := ReadLenBlob(bytes, key.value.1);
        if blob.Err? {
          return Err(blob.error);
        }
        found, pos := Some(blob.value.0), blob.value.1;
      } else {
        var p := SkipValue(bytes, key.value.1, key.value.0 % 8);
        if p.Err? {
          return Err(p.error);
        }
        pos := p.value;
      }
    }
    graph := Ok(found);
  }

  method ParseInitializers(bytes: Bytes, text: Decoding) returns (r: Result<Tensors>)
    ensures r == Initializers(bytes, text)
  {
    var found := FindGraph(bytes);
    if found.Err? {
      return Err(found.error);
    }
    if found.value.None? {
      return Err(NoGraph);
    }
    var graph, pos, out := found.value.value, 0, map[];
    while pos < |graph|
      invariant pos <= |graph| && TensorsFrom(graph, pos, out, text) == TensorsFrom(graph, 0, map[], text)
      decreases |graph| - pos
    {
      var key := ReadVarint(graph, pos);
      if key.Err? {
        return Err(key.error);
      }
      if key.value.0 / 8 == 5 && key.value.0 % 8 == 2 {
        var blob := ReadLenBlob(graph, key.value.1);
        if blob.Err? {
          return Err(blob.error);
        }
        var t := ParseTensorProto(blob.value.0, text);
        if t.Err? {
          return Err(t.error);
        }
        if t.value.Some? {
          out := out[t.value.value.name := t.value.value];
        }
        pos := blob.value.1;
      } else {
        var p := SkipValue(graph, key.value.1, key.value.0 % 8);
        if p.Err? {
          return Err(p.error);
        }
        pos := p.value;
      }
    }
    if out == map[] {
      return Err(NoInitializers);
    }
    r := Ok(out);
  }

  // ----- writing a model

  /** A field of GraphProto: an initializer, or anything else. */
  datatype Item = Initializer(entries: seq<Entry>) | Node(field: Field)

  /** A field of ModelProto: a graph, or anything else. */
  datatype Part = Graph(items: seq<Item>) | Meta(field: Field)

  predicate ProperItem(item: Item) {
    match item
    case Initializer(es) => AllProper(es)
    case Node(f) => Writable(f) && !InitializerField(f)
  }

  predicate ProperItems(items: seq<Item>) {
    forall i :: 0 <= i < |items| ==> ProperItem(items[i])
  }

  predicate ProperPart(part: Part) {
    match part
    case Graph(items) => ProperItems(items)
    case Meta(f) => Writable(f) && !GraphField(f)
  }

  predicate ProperParts(parts: seq<Part>) {
    forall i :: 0 <= i < |parts| ==> ProperPart(parts[i])
  }

  function ItemField(item: Item): Field
    requires ProperItem(item)
  {
    match item
    case Initializer(es) => Field(5, Blob(EncodeEntries(es)))
    case Node(f) => f
  }

  function EncodeItems(items: seq<Item>): Bytes
    requires ProperItems(items)
  {
    if items == [] then [] else EncodeField(ItemField(items[0])) + EncodeItems(items[1..])
  }

  function PartField(part: Part): Field
    requires ProperPart(part)
  {
    match part
    case Graph(items) => Field(7, Blob(EncodeItems(items)))
    case Meta(f) => f
  }

  function EncodeModel(parts: seq<Part>): Bytes
    requires ProperParts(parts)
  {
    if parts == [] then [] else EncodeField(PartField(parts[0])) + EncodeModel(parts[1..])
  }

  function LastGraph(parts: seq<Part>, before: Option<seq<Item>>): Option<seq<Item>> {
    if parts == [] then before
    else LastGraph(parts[1..], if parts[0].Graph? then Some(parts[0].items) else before)
  }

  /** The initializers of a type that is read, in order. */
  function Readable(items: seq<Item>): seq<seq<Entry>> {
    if items == [] then []
    else if items[0].Initializer? && CodeOf(items[0].entries, 0) in {DT_FLOAT, DT_INT8, DT_INT32}
    then [items[0].entries] + Readable(items[1..])
    else Readable(items[1..])
  }

  /** The readable initializers spell these tensors, in order. */
  predicate SpellAll(items: seq<Item>, ts: seq<Tensor>, text: Decoding) {
    var ess := Readable(items);
    |ess| == |ts| && forall i :: 0 <= i < |ts| ==> Spells(ess[i], ts[i], text)
  }

  /** A later tensor replaces one of the same name. */
  function Collect(ts: seq<Tensor>, out: Tensors): Tensors {
    if ts == [] then out else Collect(ts[1..], out[ts[0].name := ts[0]])
  }

  // ----- reading inverts writing

  lemma UnreadType(es: seq<Entry>, text: Decoding)
    requires AllProper(es) && Slice(EncodeEntries(es)) && CodeOf(es, 0) !in {DT_FLOAT, DT_INT8, DT_INT32}
    ensures TensorFrom(EncodeEntries(es), 0, BLANK, text) == Ok(None)
  {
    EntriesRead(EncodeEntries(es), 0, es, BLANK, text, TensorFrom(EncodeEntries(es), 0, BLANK, text));
    AfterBlank(es);
  }

  lemma InitializerStep(graph: Bytes, pos: nat, blob: Bytes, end: nat, t: Option<Tensor>, out: Tensors,
      text: Decoding, r: Result<Tensors>)
    requires pos < |graph| && NextField(graph, pos) == Ok((Field(5, Blob(blob)), end))
    requires TensorFrom(blob, 0, BLANK, text) == Ok(t)
    requires r == TensorsFrom(graph, pos, out, text)
    ensures r == TensorsFrom(graph, end, Insert(out, t), text)
  {
  }

  lemma NodeStep(graph: Bytes, pos: nat, f: Field, end: nat, out: Tensors, text: Decoding, r: Result<Tensors>)
    requires pos < |graph| && NextField(graph, pos) == Ok((f, end)) && !InitializerField(f)
    requires r == TensorsFrom(graph, pos, out, text)
    ensures r == TensorsFrom(graph, end, out, text)
  {
  }

  /** What one written item adds. */
  lemma ItemStep(graph: Bytes, pos: nat, end: nat, item: Item, t: Option<Tensor>, out: Tensors, text: Decoding,
      r: Result<Tensors>)
    requires ProperItem(item) && pos < |graph| && NextField(graph, pos) == Ok((ItemField(item), end))
    requires if item.Initializer? then TensorFrom(EncodeEntries(item.entries), 0, BLANK, text) == Ok(t) else t == None
    requires r == TensorsFrom(graph, pos, out, text)
    ensures r == TensorsFrom(graph, end, Insert(out, t), text)
  {
    if item.Initializer? {
      InitializerStep(graph, pos, EncodeEntries(item.entries), end, t, out, text, r);
    } else {
      NodeStep(graph, pos, item.field, end, out, text, r);
    }
  }

  /** The tensor of the first item, if it has one, and those of the others. */
  lemma FirstItem(items: seq<Item>, ts: seq<Tensor>, out: Tensors, text: Decoding) returns (t: Option<Tensor>,
      rest: seq<Tensor>)
    requires items != [] && ProperItem(items[0]) && SpellAll(items, ts, text)
    requires items[0].Initializer? ==> Slice(EncodeEntries(items[0].entries))
    ensures if items[0].Initializer? then TensorFrom(EncodeEntries(items[0].entries), 0, BLANK, text) == Ok(t)
      else t == None
    ensures SpellAll(items[1..], rest, text) && Collect(rest, Insert(out, t)) == Collect(ts, out)
  {
    if items[0].Initializer? && CodeOf(items[0].entries, 0) in {DT_FLOAT, DT_INT8, DT_INT32} {
      assert Readable(items)[1..] == Readable(items[1..]);
      TensorRoundTrip(items[0].entries, ts[0], text);
      return Some(ts[0]), ts[1..];
    }
    if items[0].Initializer? { UnreadType(items[0].entries, text); }
    t, rest := None, ts;
  }

  lemma {:induction false} ItemsRead(graph: Bytes, pos: nat, items: seq<Item>, ts: seq<Tensor>, out: Tensors,
      text: Decoding, r: Result<Tensors>)
    requires Slice(graph) && ProperItems(items) && SpellAll(items, ts, text)
    requires At(graph, pos, EncodeItems(items)) && pos + |EncodeItems(items)| == |graph|
    requires r == TensorsFrom(graph, pos, out, text)
    ensures r == Ok(Collect(ts, out))
    decreases |items|
  {
    if items != [] {
      var end := FirstItemField(graph, pos, items);
      var t, rest := FirstItemRead(graph, pos, end, items, ts, out, text, r);
      ItemsRead(graph, end, items[1..], rest, Insert(out, t), text, r);
    }
  }

  /** The first item and the others lie one behind the other. */
  lemma FirstItemAt(graph: Bytes, pos: nat, items: seq<Item>) returns (end: nat)
    requires Slice(graph) && ProperItems(items) && items != []
    requires At(graph, pos, EncodeItems(items)) && pos + |EncodeItems(items)| == |graph|
    ensures end == pos + |EncodeField(ItemField(items[0]))| && At(graph, pos, EncodeField(ItemField(items[0])))
    ensures Slice(EncodeField(ItemField(items[0]))) && pos < |graph|
    ensures At(graph, end, EncodeItems(items[1..])) && end + |EncodeItems(items[1..])| == |graph|
  {
    var f, others := EncodeField(ItemField(items[0])), EncodeItems(items[1..]);
    end := pos + |f|;
    assert EncodeItems(items) == f + others;
    AtSplit(graph, pos, f, others);
  }

  /** The first item is read next, and the others lie behind it. */
  lemma FirstItemField(graph: Bytes, pos: nat, items: seq<Item>) returns (end: nat)
    requires Slice(graph) && ProperItems(items) && items != []
    requires At(graph, pos, EncodeItems(items)) && pos + |EncodeItems(items)| == |graph|
    ensures NextIs(graph, pos, ItemField(items[0]), end)
    ensures items[0].Initializer? ==> Slice(EncodeEntries(items[0].entries))
    ensures At(graph, end, EncodeItems(items[1..])) && end + |EncodeItems(items[1..])| == |graph|
  {
    end := FirstItemAt(graph, pos, items);
    ItemFits(items[0]);
    ItemNext(graph, pos, items[0], ItemField(items[0]));
  }

  lemma ItemFits(item: Item)
    requires ProperItem(item) && Slice(EncodeField(ItemField(item)))
    ensures item.Initializer? ==> Slice(EncodeEntries(item.entries))
  {
    ItemWritable(item);
  }

  /** Field `f` is read at `pos`, and ends at `end`. */
  predicate NextIs(bytes: Bytes, pos: nat, f: Field, end: nat) {
    pos < |bytes| && NextField(bytes, pos).Ok? &&
      NextField(bytes, pos).value.0 == f && NextField(bytes, pos).value.1 == end
  }

  lemma ItemNext(graph: Bytes, pos: nat, item: Item, f: Field)
    requires Slice(graph) && ProperItem(item) && f == ItemField(item) && Slice(EncodeField(f))
    requires At(graph, pos, EncodeField(f))
    ensures NextIs(graph, pos, f, pos + |EncodeField(f)|)
  {
    ItemWritable(item);
    FieldRoundTrip(graph, pos, f);
  }

  lemma ItemWritable(item: Item)
    requires ProperItem(item) && Slice(EncodeField(ItemField(item)))
    ensures Writable(ItemField(item))
  {
  }

  lemma FirstItemRead(graph: Bytes, pos: nat, end: nat, items: seq<Item>, ts: seq<Tensor>, out: Tensors,
      text: Decoding, r: Result<Tensors>) returns (t: Option<Tensor>, rest: seq<Tensor>)
    requires items != [] && ProperItem(items[0]) && SpellAll(items, ts, text) && pos < |graph|
    requires items[0].Initializer? ==> Slice(EncodeEntries(items[0].entries))
    requires NextIs(graph, pos, ItemField(items[0]), end)
    requires r == TensorsFrom(graph, pos, out, text)
    ensures r == TensorsFrom(graph, end, Insert(out, t), text)
    ensures SpellAll(items[1..], rest, text) && Collect(rest, Insert(out, t)) == Collect(ts, out)
  {
    t, rest := FirstItem(items, ts, out, text);
    ItemStep(graph, pos, end, items[0], t, out, text, r);
  }

  function Encoded(items: Option<seq<Item>>): Option<Bytes>
    requires items.Some? ==> ProperItems(items.value)
  {
    if items.None? then None else Some(EncodeItems(items.value))
  }

  lemma GraphStep(bytes: Bytes, pos: nat, f: Field, end: nat, graph: Option<Bytes>)
    requires pos < |bytes| && NextField(bytes, pos) == Ok((f, end))
    ensures GraphFrom(bytes, pos, graph) == GraphFrom(bytes, end, if GraphField(f) then Some(f.wire.blob) else graph)
  {
  }

  lemma PartStep(bytes: Bytes, pos: nat, end: nat, part: Part, before: Option<Bytes>, next: Option<Bytes>,
      r: Result<Option<Bytes>>)
    requires Slice(bytes) && ProperPart(part)
    requires At(bytes, pos, EncodeField(PartField(part))) && end == pos + |EncodeField(PartField(part))|
    requires next == if part.Graph? then Some(EncodeItems(part.items)) else before
    requires r == GraphFrom(bytes, pos, before)
    ensures r == GraphFrom(bytes, end, next)
  {
    FieldRoundTrip(bytes, pos, PartField(part));
    GraphStep(bytes, pos, PartField(part), end, before);
  }

  lemma {:induction false} PartsRead(bytes: Bytes, pos: nat, parts: seq<Part>, before: Option<seq<Item>>,
      r: Result<Option<Bytes>>)
    requires Slice(bytes) && ProperParts(parts) && (before.Some? ==> ProperItems(before.value))
    requires At(bytes, pos, EncodeModel(parts)) && pos + |EncodeModel(parts)| == |bytes|
    requires r == GraphFrom(bytes, pos, Encoded(before))
    ensures var g := LastGraph(parts, before);
      (g.Some? ==> ProperItems(g.value)) && r == Ok(Encoded(g))
    decreases |parts|
  {
    if parts != [] {
      var next := if parts[0].Graph? then Some(parts[0].items) else before;
      var end := FirstPartAt(bytes, pos, parts);
      PartStep(bytes, pos, end, parts[0], Encoded(before), Encoded(next), r);
      PartsRead(bytes, end, parts[1..], next, r);
    }
  }

  /** The first part and the others lie one behind the other. */
  lemma FirstPartAt(bytes: Bytes, pos: nat, parts: seq<Part>) returns (end: nat)
    requires ProperParts(parts) && parts != []
    requires At(bytes, pos, EncodeModel(parts)) && pos + |EncodeModel(parts)| == |bytes|
    ensures end == pos + |EncodeField(PartField(parts[0]))| && At(bytes, pos, EncodeField(PartField(parts[0])))
    ensures At(bytes, end, EncodeModel(parts[1..])) && end + |EncodeModel(parts[1..])| == |bytes|
  {
    var f, rest := EncodeField(PartField(parts[0])), EncodeModel(parts[1..]);
    end := pos + |f|;
    assert EncodeModel(parts) == f + rest;
    AtSplit(bytes, pos, f, rest);
  }

  lemma {:induction false} GraphLength(parts: seq<Part>, before: Option<seq<Item>>)
    requires ProperParts(parts) && (before.Some? ==> ProperItems(before.value))
    ensures var g := LastGraph(parts, before);
      g == before || (g.Some? && ProperItems(g.value) && |EncodeItems(g.value)| <= |EncodeModel(parts)|)
  {
    if parts != [] {
      GraphLength(parts[1..], if parts[0].Graph? then Some(parts[0].items) else before);
    }
  }

  /** Whatever order and unknown fields a writer chose, its model is read as the tensors
      its last graph spells, a later one replacing an earlier of the same name; without a
      graph, or without any readable tensor, reading fails with that reason. */
  lemma ModelRoundTrip(parts: seq<Part>, ts: seq<Tensor>, text: Decoding)
    requires ProperParts(parts) && Slice(EncodeModel(parts))
    requires var g := LastGraph(parts, None); g.Some? ==> SpellAll(g.value, ts, text)
    ensures Initializers(EncodeModel(parts), text) ==
      if LastGraph(parts, None).None? then Err(NoGraph)
      else if ts == [] then Err(NoInitializers)
      else Ok(Collect(ts, map[]))
  {
    var bytes := EncodeModel(parts);
    PartsRead(bytes, 0, parts, None, GraphFrom(bytes, 0, None));
    if LastGraph(parts, None).Some? {
      var items := LastGraph(parts, None).value;
      GraphLength(parts, None);
      GraphRoundTrip(items, ts, text);
      CollectKeeps(ts, map[]);
      assert ts != [] ==> ts[0].name in Collect(ts, map[]);
      InitializersAre(bytes, EncodeItems(items), Collect(ts, map[]), text);
    }
  }

  lemma GraphRoundTrip(items: seq<Item>, ts: seq<Tensor>, text: Decoding)
    requires ProperItems(items) && Slice(EncodeItems(items)) && SpellAll(items, ts, text)
    ensures TensorsFrom(EncodeItems(items), 0, map[], text) == Ok(Collect(ts, map[]))
  {
    var graph := EncodeItems(items);
    ItemsRead(graph, 0, items, ts, map[], text, TensorsFrom(graph, 0, map[], text));
  }

  lemma InitializersAre(bytes: Bytes, graph: Bytes, out: Tensors, text: Decoding)
    requires GraphFrom(bytes, 0, None) == Ok(Some(graph)) && TensorsFrom(graph, 0, map[], text) == Ok(out)
    ensures Initializers(bytes, text) == if out == map[] then Err(NoInitializers) else Ok(out)
  {
  }

  lemma {:induction false} CollectKeeps(ts: seq<Tensor>, out: Tensors)
    ensures forall name :: name in Collect(ts, out) <==> name in out || exists i :: 0 <= i < |ts| && ts[i].name == name
  {
    if ts != [] {
      var out' := out[ts[0].name := ts[0]];
      CollectKeeps(ts[1..], out');
      forall name ensures name in Collect(ts, out) <==> name in out || exists i :: 0 <= i < |ts| && ts[i].name == name {
        if i :| 0 <= i < |ts| && ts[i].name == name && i > 0 {
          assert ts[1..][i - 1].name == name;
        }
      }
    }
  }

  lemma {:induction false} CollectLast(ts: seq<Tensor>, out: Tensors, i: nat)
    requires i < |ts| && forall j :: i < j < |ts| ==> ts[j].name != ts[i].name
    ensures ts[i].name in Collect(ts, out) && Collect(ts, out)[ts[i].name] == ts[i]
  {
    if i > 0 {
      CollectLast(ts[1..], out[ts[0].name := ts[0]], i - 1);
    } else {
      CollectOther(ts[1..], out[ts[0].name := ts[0]], ts[0].name);
    }
  }

  lemma {:induction false} CollectOther(ts: seq<Tensor>, out: Tensors, name: string)
    requires name in out && forall j :: 0 <= j < |ts| ==> ts[j].name != name
    ensures name in Collect(ts, out) && Collect(ts, out)[name] == out[name]
  {
    if ts != [] { CollectOther(ts[1..], out[ts[0].name := ts[0]], name); }
  }

  /** With distinct names the result is exactly the list of tensors, by name. */
  lemma ReadInvertsWrite(parts: seq<Part>, ts: seq<Tensor>, text: Decoding)
    requires ProperParts(parts) && Slice(EncodeModel(parts)) && ts != []
    requires LastGraph(parts, None).Some? && SpellAll(LastGraph(parts, None).value, ts, text)
    requires forall i, j :: 0 <= i < j < |ts| ==> ts[i].name != ts[j].name
    ensures var r := Initializers(EncodeModel(parts), text);
      && r.Ok?
      && (forall name :: name in r.value <==> exists i :: 0 <= i < |ts| && ts[i].name == name)
      && (forall i :: 0 <= i < |ts| ==> r.value[ts[i].name] == ts[i])
  {
    ModelRoundTrip(parts, ts, text);
    CollectKeeps(ts, map[]);
    forall i | 0 <= i < |ts| ensures Collect(ts, map[])[ts[i].name] == ts[i] {
      CollectLast(ts, map[], i);
    }
  }
}

/** 1-D convolution without padding: the direct sum, and the tiled form that lowers 2048
    output positions at a time to a matrix product and copies the tile's rows into place.
    Max pooling beside it. */
module Seq1d {
  import opened Wrappers
  import opened Flat
  import opened Gemm

  const IM2COL_TILE := 2048

  /** NCL. */
  datatype Series = Series(n: nat, c: nat, l: nat, data: seq<real>) {
    ghost predicate Valid() {
      |data| == (n * c) * l
    }
  }

  datatype Filter = Filter(weight: seq<real>, bias: Option<seq<real>>, oc: nat, k: nat, stride: nat) {
    /** The filter fits the series. */
    ghost predicate Fits(x: Series) {
      && x.Valid() && k <= x.l && stride > 0
      && |weight| == oc * (x.c * k) && (bias.Some? ==> |bias.value| == oc)
    }

    function OutLen(x: Series): (ol: nat)
      requires k <= x.l && stride > 0
      ensures ol >= 1
    {
      (x.l - k) / stride + 1
    }

    function Bias(): seq<real> {
      if bias.Some? then bias.value else seq(oc, _ => 0.0)
    }
  }

  // ----- the direct sum

  function AlongTaps(f: Filter, x: Series, n: nat, o: nat, i: nat, ic: nat): nat -> real {
    (kk: nat) =>
      Get(f.weight, Ix(o, x.c * f.k, Ix(ic, f.k, kk))) * Get(x.data, Ix(Ix(n, x.c, ic), x.l, i * f.stride + kk))
  }

  function AlongInputs(f: Filter, x: Series, n: nat, o: nat, i: nat): nat -> real {
    (ic: nat) => Sum(AlongTaps(f, x, n, o, i, ic), f.k)
  }

  function Direct(f: Filter, x: Series, n: nat, o: nat, i: nat): real {
    Get(f.Bias(), o) + Sum(AlongInputs(f, x, n, o, i), x.c)
  }

  /** Row n*oc + o of the output. */
  function Output(f: Filter, x: Series): Cells<real> {
    (row: nat, i: nat) => if f.oc == 0 then 0.0 else Direct(f, x, row / f.oc, row % f.oc, i)
  }

  lemma OutputAt(f: Filter, x: Series, n: nat, o: nat, i: nat)
    requires o < f.oc
    ensures Output(f, x)(Ix(n, f.oc, o), i) == Direct(f, x, n, o, i)
  {
    IxDiv(n, f.oc, o);
  }

  /** There is an output position for exactly the windows that end inside the row. */
  lemma WindowFits(f: Filter, x: Series, i: nat)
    requires f.k <= x.l && f.stride > 0
    ensures i < f.OutLen(x) <==> i * f.stride + f.k <= x.l
  {
    WindowCount(x.l, f.k, f.stride, i);
  }

  // ----- one position at a time

  function Products(a: seq<real>, b: seq<real>): nat -> real {
    (i: nat) => Get(a, i) * Get(b, i)
  }

  /** The dot product in four lanes and a tail. */
  method Dot(a: seq<real>, b: seq<real>) returns (acc: real)
    requires |a| == |b|
    ensures acc == Sum(Products(a, b), |a|)
  {
    var acc0, acc1, acc2, acc3 := 0.0, 0.0, 0.0, 0.0;
    var i, n := 0, |a|;
    while i + 4 <= n
      invariant i <= n && acc0 + acc1 + acc2 + acc3 == Sum(Products(a, b), i)
    {
      FourMore(a, b, i);
      acc0 := acc0 + a[i] * b[i];
      acc1 := acc1 + a[i + 1] * b[i + 1];
      acc2 := acc2 + a[i + 2] * b[i + 2];
      acc3 := acc3 + a[i + 3] * b[i + 3];
      i := i + 4;
    }
    acc := acc0 + acc1 + acc2 + acc3;
    while i < n
      invariant i <= n && acc == Sum(Products(a, b), i)
    {
      OneMore(a, b, i);
      acc := acc + a[i] * b[i];
      i := i + 1;
    }
  }

  lemma FourMore(a: seq<real>, b: seq<real>, i: nat)
    requires i + 4 <= |a| == |b|
    ensures Sum(Products(a, b), i + 4)
      == Sum(Products(a, b), i) + a[i] * b[i] + a[i + 1] * b[i + 1] + a[i + 2] * b[i + 2] + a[i + 3] * b[i + 3]
  {
    OneMore(a, b, i);
    OneMore(a, b, i + 1);
    OneMore(a, b, i + 2);
    OneMore(a, b, i + 3);
  }

  lemma OneMore(a: seq<real>, b: seq<real>, i: nat)
    requires i < |a| == |b|
    ensures Sum(Products(a, b), i + 1) == Sum(Products(a, b), i) + a[i] * b[i]
  {
  }

  lemma TapsFit(f: Filter, x: Series, n: nat, o: nat, i: nat, ic: nat)
    requires f.Fits(x) && n < x.n && o < f.oc && i < f.OutLen(x) && ic < x.c
    ensures var ww, xb := Ix(o, x.c * f.k, Ix(ic, f.k, 0)), Ix(Ix(n, x.c, ic), x.l, i * f.stride);
      ww + f.k <= |f.weight| && xb + f.k <= |x.data|
  {
    WindowFits(f, x, i);
    IxBound(n, x.n, x.c, ic);
    SegmentFits(x.c, f.k, ic, 0, f.k);
    SegmentFits(f.oc, x.c * f.k, o, Ix(ic, f.k, 0), f.k);
    SegmentFits(x.n * x.c, x.l, Ix(n, x.c, ic), i * f.stride, f.k);
  }

  method At(f: Filter, x: Series, n: nat, o: nat, i: nat) returns (acc: real)
    requires f.Fits(x) && n < x.n && o < f.oc && i < f.OutLen(x)
    ensures acc == Direct(f, x, n, o, i)
  {
    acc := if f.bias.Some? then f.bias.value[o] else 0.0;
    for ic := 0 to x.c
      invariant acc == Get(f.Bias(), o) + Sum(AlongInputs(f, x, n, o, i), ic)
    {
      var d := InputDot(f, x, n, o, i, ic);
      acc := acc + d;
    }
  }

  /** What input channel `ic` adds. */
  method InputDot(f: Filter, x: Series, n: nat, o: nat, i: nat, ic: nat) returns (d: real)
    requires f.Fits(x) && n < x.n && o < f.oc && i < f.OutLen(x) && ic < x.c
    ensures d == AlongInputs(f, x, n, o, i)(ic)
  {
    TapsFit(f, x, n, o, i, ic);
    var ww, xb := Ix(o, x.c * f.k, Ix(ic, f.k, 0)), Ix(Ix(n, x.c, ic), x.l, i * f.stride);
    d := Dot(f.weight[ww..ww + f.k], x.data[xb..xb + f.k]);
    DotIsTaps(f, x, n, o, i, ic, ww, xb);
  }

  lemma DotIsTaps(f: Filter, x: Series, n: nat, o: nat, i: nat, ic: nat, ww: nat, xb: nat)
    requires ww == Ix(o, x.c * f.k, Ix(ic, f.k, 0)) && xb == Ix(Ix(n, x.c, ic), x.l, i * f.stride)
    requires ww + f.k <= |f.weight| && xb + f.k <= |x.data|
    ensures Sum(Products(f.weight[ww..ww + f.k], x.data[xb..xb + f.k]), f.k) == AlongInputs(f, x, n, o, i)(ic)
  {
    var ws, xs := f.weight[ww..ww + f.k], x.data[xb..xb + f.k];
    forall kk: nat | kk < f.k ensures Products(ws, xs)(kk) == AlongTaps(f, x, n, o, i, ic)(kk) {
      assert Ix(o, x.c * f.k, Ix(ic, f.k, kk)) == ww + kk;
      assert Ix(Ix(n, x.c, ic), x.l, i * f.stride + kk) == xb + kk;
    }
    SumEq(Products(ws, xs), AlongTaps(f, x, n, o, i, ic), f.k);
  }

  /** One row of the output. */
  function Line(f: Filter, x: Series, n: nat, o: nat, i0: nat, len: nat): (r: seq<real>)
    ensures |r| == len && forall t :: 0 <= t < len ==> r[t] == Direct(f, x, n, o, i0 + t)
  {
    seq(len, t requires 0 <= t < len => Direct(f, x, n, o, i0 + t))
  }

  lemma LineIsOutput(f: Filter, x: Series, n: nat, o: nat, i0: nat, row: nat, line: seq<real>)
    requires o < f.oc && row == Ix(n, f.oc, o) && line == Line(f, x, n, o, i0, |line|)
    ensures forall t :: 0 <= t < |line| ==> line[t] == Output(f, x)(row, i0 + t)
  {
    forall t | 0 <= t < |line| ensures line[t] == Output(f, x)(row, i0 + t) {
      OutputAt(f, x, n, o, i0 + t);
    }
  }

  method GenericRow(f: Filter, x: Series, n: nat, o: nat, y: array<real>, at: nat)
    requires f.Fits(x) && n < x.n && o < f.oc && at + f.OutLen(x) <= y.Length
    modifies y
    ensures y[..] == Patch(old(y[..]), at, Line(f, x, n, o, 0, f.OutLen(x)))
  {
    ghost var line := Line(f, x, n, o, 0, f.OutLen(x));
    for i := 0 to f.OutLen(x)
      invariant y[..] == Patch(old(y[..]), at, line[..i])
    {
      var acc := At(f, x, n, o, i);
      y[at + i] := acc;
    }
    assert line[..f.OutLen(x)] == line;
  }

  method Conv1dGeneric(f: Filter, x: Series) returns (y: array<real>)
    requires f.Fits(x)
    ensures fresh(y) && Holds(y[..], x.n * f.oc, f.OutLen(x), Output(f, x))
  {
    var ol := f.OutLen(x);
    var rows := x.n * f.oc;
    y := new real[rows * ol](_ => 0.0);
    ghost var first, v := y[..], Output(f, x);
    NothingOverwritten(first, rows, ol, 0, 0, 0, ol, v);
    ghost var row := 0;
    for n := 0 to x.n
      invariant row == Ix(n, f.oc, 0) && Overwritten(first, y[..], rows, ol, 0, row, 0, ol, v)
    {
      for o := 0 to f.oc
        invariant row == Ix(n, f.oc, o) && Overwritten(first, y[..], rows, ol, 0, row, 0, ol, v)
      {
        PlaceRow(f, x, n, o, y, first, rows, row);
        row := row + 1;
      }
    }
    assert row == rows;
    AllOverwritten(first, y[..], rows, ol, v);
  }

  /** Row `o` of sample `n`, in its place. */
  method PlaceRow(f: Filter, x: Series, n: nat, o: nat, y: array<real>, ghost first: seq<real>, ghost rows: nat,
                  ghost row: nat)
    requires f.Fits(x) && n < x.n && o < f.oc && row == Ix(n, f.oc, o) && rows == x.n * f.oc
    requires Overwritten(first, y[..], rows, f.OutLen(x), 0, row, 0, f.OutLen(x), Output(f, x))
    modifies y
    ensures Overwritten(first, y[..], rows, f.OutLen(x), 0, row + 1, 0, f.OutLen(x), Output(f, x))
  {
    var ol := f.OutLen(x);
    IxBound(n, x.n, f.oc, o);
    ghost var line := Line(f, x, n, o, 0, ol);
    LineIsOutput(f, x, n, o, 0, row, line);
    NextRow(first, y[..], rows, ol, 0, row, 0, ol, line, Output(f, x));
    GenericRow(f, x, n, o, y, Ix(Ix(n, f.oc, o), ol, 0));
  }

  // ----- tiles

  /** Row r of the columns of positions o0, o0+1, ...: tap r%k of channel r/k. */
  function TileColumns(f: Filter, x: Series, n: nat, o0: nat): Cells<real> {
    (r: nat, t: nat) =>
      if f.k == 0 then 0.0
      else Get(x.data, Ix(Ix(n, x.c, r / f.k), x.l, (o0 + t) * f.stride + r % f.k))
  }

  function TileRow(f: Filter, x: Series, n: nat, o0: nat, r: nat, tn: nat): (row: seq<real>)
    ensures |row| == tn && forall t :: 0 <= t < tn ==> row[t] == TileColumns(f, x, n, o0)(r, 0 + t)
  {
    seq(tn, t requires 0 <= t < tn => TileColumns(f, x, n, o0)(r, t))
  }

  lemma TileAt(f: Filter, x: Series, n: nat, o0: nat, ic: nat, kk: nat, t: nat)
    requires kk < f.k
    ensures TileColumns(f, x, n, o0)(Ix(ic, f.k, kk), t) ==
      Get(x.data, Ix(Ix(n, x.c, ic), x.l, (o0 + t) * f.stride + kk))
  {
    IxDiv(ic, f.k, kk);
  }

  lemma SourceFits(f: Filter, x: Series, n: nat, ic: nat, i: nat, kk: nat)
    requires f.Fits(x) && n < x.n && ic < x.c && kk < f.k && i < f.OutLen(x)
    ensures Ix(Ix(n, x.c, ic), x.l, i * f.stride + kk) < |x.data|
  {
    WindowFits(f, x, i);
    IxBound(n, x.n, x.c, ic);
    IxBound(Ix(n, x.c, ic), x.n * x.c, x.l, i * f.stride + kk);
  }

  /** Every `stride`-th sample of one channel. */
  method FillTap(f: Filter, x: Series, n: nat, o0: nat, ic: nat, kk: nat, tn: nat, col: array<real>, at: nat)
    requires f.Fits(x) && n < x.n && ic < x.c && kk < f.k && o0 + tn <= f.OutLen(x) && at + tn <= col.Length
    modifies col
    ensures col[..] == Patch(old(col[..]), at, TileRow(f, x, n, o0, Ix(ic, f.k, kk), tn))
  {
    ghost var first, row := col[..], TileRow(f, x, n, o0, Ix(ic, f.k, kk), tn);
    var i0 := o0 * f.stride + kk;
    for t := 0 to tn
      invariant i0 == (o0 + t) * f.stride + kk
      invariant col[..] == Patch(first, at, row[..t])
    {
      SampleAt(f, x, n, o0, ic, kk, t, i0);
      PatchOne(first, at, row, t);
      ghost var before := col[..];
      col[at + t] := x.data[Ix(Ix(n, x.c, ic), x.l, i0)];
      assert col[..] == before[at + t := row[t]];
      i0 := i0 + f.stride;
    }
    assert row[..tn] == row;
  }

  lemma PatchOne(first: seq<real>, at: nat, row: seq<real>, t: nat)
    requires t < |row| && at + |row| <= |first|
    ensures Patch(first, at, row[..t])[at + t := row[t]] == Patch(first, at, row[..t + 1])
  {
  }

  lemma SampleAt(f: Filter, x: Series, n: nat, o0: nat, ic: nat, kk: nat, t: nat, i0: nat)
    requires f.Fits(x) && n < x.n && ic < x.c && kk < f.k && o0 + t < f.OutLen(x) && i0 == (o0 + t) * f.stride + kk
    ensures var from := Ix(Ix(n, x.c, ic), x.l, i0);
      from < |x.data| && x.data[from] == TileColumns(f, x, n, o0)(Ix(ic, f.k, kk), t)
    ensures i0 + f.stride == (o0 + (t + 1)) * f.stride + kk
  {
    SourceFits(f, x, n, ic, o0 + t, kk);
    TileAt(f, x, n, o0, ic, kk, t);
    NextSample(o0 + t, f.stride);
  }

  lemma NextSample(i: nat, stride: nat)
    ensures (i + 1) * stride == i * stride + stride
  {
  }

  method FillTile(f: Filter, x: Series, n: nat, o0: nat, tn: nat, col: array<real>)
    requires f.Fits(x) && n < x.n && o0 + tn <= f.OutLen(x) && col.Length == (x.c * f.k) * tn
    modifies col
    ensures Holds(col[..], x.c * f.k, tn, TileColumns(f, x, n, o0))
  {
    ghost var first, rows, v := col[..], x.c * f.k, TileColumns(f, x, n, o0);
    ghost var r := 0;
    NothingOverwritten(first, rows, tn, 0, 0, 0, tn, v);
    for ic := 0 to x.c
      invariant r == Ix(ic, f.k, 0) && Overwritten(first, col[..], rows, tn, 0, r, 0, tn, v)
    {
      for kk := 0 to f.k
        invariant r == Ix(ic, f.k, kk) && Overwritten(first, col[..], rows, tn, 0, r, 0, tn, v)
      {
        PlaceTap(f, x, n, o0, ic, kk, tn, col, first, rows, r);
        r := r + 1;
      }
    }
    assert r == rows;
    AllOverwritten(first, col[..], rows, tn, v);
  }

  /** Tap `kk` of input channel `ic`, in its row of the tile. */
  method PlaceTap(f: Filter, x: Series, n: nat, o0: nat, ic: nat, kk: nat, tn: nat, col: array<real>,
                  ghost first: seq<real>, ghost rows: nat, ghost r: nat)
    requires f.Fits(x) && n < x.n && o0 + tn <= f.OutLen(x) && rows == x.c * f.k
    requires ic < x.c && kk < f.k && r == Ix(ic, f.k, kk)
    requires Overwritten(first, col[..], rows, tn, 0, r, 0, tn, TileColumns(f, x, n, o0))
    modifies col
    ensures Overwritten(first, col[..], rows, tn, 0, r + 1, 0, tn, TileColumns(f, x, n, o0))
  {
    IxBound(ic, x.c, f.k, kk);
    NextRow(first, col[..], rows, tn, 0, r, 0, tn, TileRow(f, x, n, o0, r, tn), TileColumns(f, x, n, o0));
    FillTap(f, x, n, o0, ic, kk, tn, col, Ix(Ix(ic, f.k, kk), tn, 0));
  }

  /** The tile's product is a piece of each output row. */
  lemma TileProduct(f: Filter, x: Series, n: nat, o0: nat, tn: nat, col: seq<real>, ty: seq<real>, o: nat)
    requires o < f.oc && Holds(col, x.c * f.k, tn, TileColumns(f, x, n, o0))
    requires Holds(ty, f.oc, tn, RowBias(f.weight, col, f.Bias(), tn, x.c * f.k))
    ensures Ix(o, tn, 0) + tn <= |ty|
    ensures ty[Ix(o, tn, 0)..Ix(o, tn, 0) + tn] == Line(f, x, n, o, o0, tn)
  {
    SegmentFits(f.oc, tn, o, 0, tn);
    var part, line := ty[Ix(o, tn, 0)..Ix(o, tn, 0) + tn], Line(f, x, n, o, o0, tn);
    forall t | 0 <= t < tn ensures part[t] == line[t] {
      assert Ix(o, tn, 0) + t == Bounded(o, f.oc, tn, t);
      ProductIsDirect(f, x, n, o0, tn, col, o, t);
    }
  }

  lemma ProductIsDirect(f: Filter, x: Series, n: nat, o0: nat, tn: nat, col: seq<real>, o: nat, t: nat)
    requires t < tn && Holds(col, x.c * f.k, tn, TileColumns(f, x, n, o0))
    ensures RowBias(f.weight, col, f.Bias(), tn, x.c * f.k)(o, t) == Direct(f, x, n, o, o0 + t)
  {
    var term := Term(f.weight, col, tn, x.c * f.k, o, t);
    SumFlat(term, x.c, f.k);
    forall ic: nat | ic < x.c ensures RunSums(term, f.k)(ic) == AlongInputs(f, x, n, o, o0 + t)(ic) {
      forall kk: nat | kk < f.k ensures Run(term, f.k, ic)(kk) == AlongTaps(f, x, n, o, o0 + t, ic)(kk) {
        TermIsTap(f, x, n, o0, tn, col, o, t, ic, kk);
      }
      SumEq(Run(term, f.k, ic), AlongTaps(f, x, n, o, o0 + t, ic), f.k);
    }
    SumEq(RunSums(term, f.k), AlongInputs(f, x, n, o, o0 + t), x.c);
  }

  lemma TermIsTap(f: Filter, x: Series, n: nat, o0: nat, tn: nat, col: seq<real>, o: nat, t: nat, ic: nat, kk: nat)
    requires t < tn && ic < x.c && kk < f.k && Holds(col, x.c * f.k, tn, TileColumns(f, x, n, o0))
    ensures Run(Term(f.weight, col, tn, x.c * f.k, o, t), f.k, ic)(kk) == AlongTaps(f, x, n, o, o0 + t, ic)(kk)
  {
    IxBound(ic, x.c, f.k, kk);
    TileAt(f, x, n, o0, ic, kk, t);
    assert col[Bounded(Ix(ic, f.k, kk), x.c * f.k, tn, t)] == TileColumns(f, x, n, o0)(Ix(ic, f.k, kk), t);
  }

  /** The tile's rows, each a piece of an output row. */
  ghost predicate TileDone(f: Filter, x: Series, n: nat, o0: nat, tn: nat, ty: seq<real>) {
    forall o: nat :: o < f.oc ==>
      Ix(o, tn, 0) + tn <= |ty| && ty[Ix(o, tn, 0)..Ix(o, tn, 0) + tn] == Line(f, x, n, o, o0, tn)
  }

  /** Land the tile: copy its rows into rows n*oc to (n+1)*oc of the output. */
  method LandTile(f: Filter, x: Series, n: nat, o0: nat, tn: nat, ty: seq<real>, y: array<real>, rows: nat, ol: nat)
    requires n < x.n && o0 + tn <= ol && rows == x.n * f.oc && y.Length == rows * ol && TileDone(f, x, n, o0, tn, ty)
    modifies y
    ensures Overwritten(old(y[..]), y[..], rows, ol, Ix(n, f.oc, 0), Ix(n, f.oc, f.oc), o0, o0 + tn, Output(f, x))
  {
    ghost var v, row := Output(f, x), Ix(n, f.oc, 0);
    NothingOverwritten(y[..], rows, ol, row, row, o0, o0 + tn, v);
    for o := 0 to f.oc
      invariant row == Ix(n, f.oc, o) && Overwritten(old(y[..]), y[..], rows, ol, Ix(n, f.oc, 0), row, o0, o0 + tn, v)
    {
      IxBound(n, x.n, f.oc, o);
      var part := ty[Ix(o, tn, 0)..Ix(o, tn, 0) + tn];
      LineIsOutput(f, x, n, o, o0, row, part);
      NextRow(old(y[..]), y[..], rows, ol, Ix(n, f.oc, 0), row, o0, o0 + tn, part, v);
      CopyInto(y, Ix(Ix(n, f.oc, o), ol, o0), part);
      row := row + 1;
    }
  }

  /** One tile of the product. Both buffers are reused across calls: what they hold at
      first is arbitrary. */
  method TileBuffer(f: Filter, x: Series, n: nat, o0: nat, tn: nat) returns (ty: array<real>)
    requires f.Fits(x) && n < x.n && o0 + tn <= f.OutLen(x)
    ensures fresh(ty) && TileDone(f, x, n, o0, tn, ty[..])
  {
    var depth := x.c * f.k;
    var col := new real[depth * tn];
    ty := new real[f.oc * tn];
    FillTile(f, x, n, o0, tn, col);
    GemmBiasRow(f.weight, col[..], f.Bias(), ty, f.oc, tn, depth);
    forall o: nat | o < f.oc
      ensures Ix(o, tn, 0) + tn <= |ty[..]| && ty[..][Ix(o, tn, 0)..Ix(o, tn, 0) + tn] == Line(f, x, n, o, o0, tn)
    {
      TileProduct(f, x, n, o0, tn, col[..], ty[..], o);
    }
  }

  /** The tiled form: one input channel with any filter, or any channels with five taps. */
  method Conv1dTiled(f: Filter, x: Series) returns (y: array<real>)
    requires f.Fits(x)
    ensures fresh(y) && Holds(y[..], x.n * f.oc, f.OutLen(x), Output(f, x))
  {
    var ol, rows := f.OutLen(x), x.n * f.oc;
    y := new real[rows * ol](_ => 0.0);
    ghost var first, v := y[..], Output(f, x);
    NothingOverwritten(first, rows, ol, 0, 0, 0, ol, v);
    for n := 0 to x.n
      invariant Overwritten(first, y[..], rows, ol, 0, Ix(n, f.oc, 0), 0, ol, v)
    {
      ghost var before := y[..];
      Series1(f, x, n, y, rows, ol);
      MoreRows(first, before, y[..], rows, ol, 0, Ix(n, f.oc, 0), Ix(n, f.oc, f.oc), 0, ol, v);
      assert Ix(n, f.oc, f.oc) == Ix(n + 1, f.oc, 0);
    }
    assert Ix(x.n, f.oc, 0) == rows;
    AllOverwritten(first, y[..], rows, ol, v);
  }

  /** One series, tile after tile. */
  method Series1(f: Filter, x: Series, n: nat, y: array<real>, rows: nat, ol: nat)
    requires f.Fits(x) && n < x.n && ol == f.OutLen(x) && rows == x.n * f.oc && y.Length == rows * ol
    modifies y
    ensures Overwritten(old(y[..]), y[..], rows, ol, Ix(n, f.oc, 0), Ix(n, f.oc, f.oc), 0, ol, Output(f, x))
  {
    ghost var v, lo, hi := Output(f, x), Ix(n, f.oc, 0), Ix(n, f.oc, f.oc);
    NothingOverwritten(y[..], rows, ol, lo, hi, 0, 0, v);
    var o0 := 0;
    while o0 < ol
      invariant o0 <= ol && Overwritten(old(y[..]), y[..], rows, ol, lo, hi, 0, o0, v)
    {
      var tn := if ol - o0 < IM2COL_TILE then ol - o0 else IM2COL_TILE;
      ghost var before := y[..];
      var ty := TileBuffer(f, x, n, o0, tn);
      LandTile(f, x, n, o0, tn, ty[..], y, rows, ol);
      MoreColumns(old(y[..]), before, y[..], rows, ol, lo, hi, 0, o0, o0 + tn, v);
      o0 := o0 + tn;
    }
  }

  /** Whichever path is taken, the output is the direct sum, with one value in each row for
      every window that fits and no other. */
  method Conv1d(f: Filter, x: Series) returns (y: array<real>)
    requires f.Fits(x)
    ensures fresh(y) && Holds(y[..], x.n * f.oc, f.OutLen(x), Output(f, x))
    ensures y.Length == (x.n * f.oc) * f.OutLen(x)
    ensures CountsWindows(f.OutLen(x), x.l, f.k, f.stride)
  {
    WindowsCounted(x.l, f.k, f.stride);
    if x.c == 1 || f.k == 5 {
      y := Conv1dTiled(f, x);
    } else {
      y := Conv1dGeneric(f, x);
    }
  }

  /** What that says of one output value: window `i` of sample `n` under filter `o`. */
  lemma EntryAt(f: Filter, x: Series, y: seq<real>, n: nat, o: nat, i: nat)
    requires f.k <= x.l && f.stride > 0 && Holds(y, x.n * f.oc, f.OutLen(x), Output(f, x))
    requires n < x.n && o < f.oc && i * f.stride + f.k <= x.l
    ensures var at := Ix(Ix(n, f.oc, o), f.OutLen(x), i);
      at < |y| && y[at] == Direct(f, x, n, o, i)
  {
    WindowFits(f, x, i);
    IxBound(n, x.n, f.oc, o);
    OutputAt(f, x, n, o, i);
    assert y[Bounded(Ix(n, f.oc, o), x.n * f.oc, f.OutLen(x), i)] == Output(f, x)(Ix(n, f.oc, o), i);
  }

  // ----- max pooling

  /** `m` is the largest of the `k` samples from `at` on. */
  ghost predicate IsMax(src: seq<real>, at: nat, k: nat, m: real) {
    && at + k <= |src|
    && (exists t :: at <= t < at + k && src[t] == m)
    && forall t :: at <= t < at + k ==> src[t] <= m
  }

  function Max(a: real, b: real): real {
    if a > b then a else b
  }

  function Max3(src: seq<real>, at: nat): (m: real)
    requires at + 3 <= |src|
    ensures IsMax(src, at, 3, m)
  {
    Max(Max(src[at], src[at + 1]), src[at + 2])
  }

  method MaxOf(src: seq<real>, i0: nat, k: nat) returns (m: real)
    requires k >= 1 && i0 + k <= |src|
    ensures IsMax(src, i0, k, m)
  {
    m := src[i0];
    for kk := 1 to k
      invariant IsMax(src, i0, kk, m)
    {
      if src[i0 + kk] > m { m := src[i0 + kk]; }
    }
  }

  /** Windows of three, four at a time and then one by one. */
  method PoolThrees(src: seq<real>, dst: array<real>)
    requires 3 * dst.Length <= |src|
    modifies dst
    ensures forall i :: 0 <= i < dst.Length ==> IsMax(src, i * 3, 3, dst[i])
  {
    var i := 0;
    while i + 4 <= dst.Length
      invariant i <= dst.Length && forall j :: 0 <= j < i ==> IsMax(src, j * 3, 3, dst[j])
    {
      var i0 := i * 3;
      dst[i] := Max3(src, i0);
      dst[i + 1] := Max3(src, i0 + 3);
      dst[i + 2] := Max3(src, i0 + 6);
      dst[i + 3] := Max3(src, i0 + 9);
      i := i + 4;
    }
    while i < dst.Length
      invariant i <= dst.Length && forall j :: 0 <= j < i ==> IsMax(src, j * 3, 3, dst[j])
    {
      dst[i] := Max3(src, i * 3);
      i := i + 1;
    }
  }

  /** One channel: three by three in fours, or any window by a scan. */
  method MaxPoolRow(src: seq<real>, k: nat, stride: nat, ol: nat) returns (dst: array<real>)
    requires 1 <= k <= |src| && stride > 0 && ol == (|src| - k) / stride + 1
    ensures fresh(dst) && dst.Length == ol && forall i :: 0 <= i < ol ==> IsMax(src, i * stride, k, dst[i])
    ensures CountsWindows(dst.Length, |src|, k, stride)
  {
    WindowsCounted(|src|, k, stride);
    dst := new real[ol];
    if k == 3 && stride == 3 {
      PoolThrees(src, dst);
    } else {
      for i := 0 to ol
        invariant forall j :: 0 <= j < i ==> IsMax(src, j * stride, k, dst[j])
      {
        PoolFits(|src|, k, stride, i);
        var m := MaxOf(src, i * stride, k);
        dst[i] := m;
      }
    }
  }

  lemma PoolFits(l: nat, k: nat, stride: nat, i: nat)
    requires k <= l && stride > 0 && i <= (l - k) / stride
    ensures i * stride + k <= l
  {
    var q := (l - k) / stride;
    assert i * stride <= q * stride <= l - k;
  }
}

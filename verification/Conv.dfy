/** 2-D convolution by lowering to one matrix product: the direct 1x1 case, the row-copy
    3x3 case, general im2col, and the batched form that packs all images side by side.
    Arithmetic is exact; scratch buffers may hold anything. */
module Conv {
  import opened Flat
  import opened Gemm

  /** NCHW. */
  datatype Tensor = Tensor(n: nat, c: nat, h: nat, w: nat, data: seq<real>) {
    ghost predicate Valid() {
      |data| == (n * c) * (h * w)
    }
  }

  datatype Layer = Layer(oc: nat, ic: nat, k: nat, stride: nat, pad: nat, weight: seq<real>, bias: seq<real>) {
    ghost predicate Valid() {
      k > 0 && stride > 0 && |weight| == oc * Depth() && |bias| == oc
    }

    function Depth(): nat {
      ic * k * k
    }

    /** The kernel fits the padded image. */
    ghost predicate Fits(x: Tensor) {
      Valid() && x.Valid() && x.c == ic && k <= x.h + 2 * pad && k <= x.w + 2 * pad
    }

    function OutH(x: Tensor): (oh: nat)
      requires k <= x.h + 2 * pad && stride > 0
      ensures oh >= 1
    {
      (x.h + 2 * pad - k) / stride + 1
    }

    function OutW(x: Tensor): (ow: nat)
      requires k <= x.w + 2 * pad && stride > 0
      ensures ow >= 1
    {
      (x.w + 2 * pad - k) / stride + 1
    }
  }

  /** The value at (y, z) of one channel of one image, zero outside. */
  function Pixel(x: Tensor, ni: nat, ch: nat, y: int, z: int): real {
    if 0 <= y < x.h && 0 <= z < x.w then Get(x.data, Ix(Ix(ni, x.c, ch), x.h * x.w, Ix(y, x.w, z))) else 0.0
  }

  // ----- the direct convolution

  function AlongX(l: Layer, x: Tensor, ni: nat, o: nat, oy: nat, ox: nat, ch: nat, ky: nat): nat -> real {
    (kx: nat) => Get(l.weight, Ix(o, l.Depth(), Ix(Ix(ch, l.k, ky), l.k, kx)))
                 * Pixel(x, ni, ch, oy * l.stride + ky - l.pad, ox * l.stride + kx - l.pad)
  }

  function AlongY(l: Layer, x: Tensor, ni: nat, o: nat, oy: nat, ox: nat, ch: nat): nat -> real {
    (ky: nat) => Sum(AlongX(l, x, ni, o, oy, ox, ch, ky), l.k)
  }

  function AlongChannels(l: Layer, x: Tensor, ni: nat, o: nat, oy: nat, ox: nat): nat -> real {
    (ch: nat) => Sum(AlongY(l, x, ni, o, oy, ox, ch), l.k)
  }

  /** Bias plus the sum over channels, kernel rows and kernel columns. */
  function Direct(l: Layer, x: Tensor, ni: nat, o: nat, oy: nat, ox: nat): real {
    Get(l.bias, o) + Sum(AlongChannels(l, x, ni, o, oy, ox), l.ic)
  }

  // ----- the column matrix

  /** What kernel tap `r` sees at output position (oy, ox). */
  function Tap(l: Layer, x: Tensor, ni: nat, r: nat, oy: nat, ox: nat): real
    requires l.k > 0
  {
    Pixel(x, ni, r / l.k / l.k, oy * l.stride + r / l.k % l.k - l.pad, ox * l.stride + r % l.k - l.pad)
  }

  lemma TapAt(l: Layer, x: Tensor, ni: nat, ch: nat, ky: nat, kx: nat, oy: nat, ox: nat)
    requires ky < l.k && kx < l.k
    ensures Tap(l, x, ni, Ix(Ix(ch, l.k, ky), l.k, kx), oy, ox) ==
      Pixel(x, ni, ch, oy * l.stride + ky - l.pad, ox * l.stride + kx - l.pad)
  {
    IxDiv(Ix(ch, l.k, ky), l.k, kx);
    IxDiv(ch, l.k, ky);
  }

  /** Tap r at output position t in reading order. */
  function TapFlat(l: Layer, x: Tensor, ni: nat, r: nat, t: nat, ow: nat): real {
    if l.k == 0 || ow == 0 then 0.0 else Tap(l, x, ni, r, t / ow, t % ow)
  }

  /** Column q of row r: tap r of output position q, images side by side. */
  function Columns(l: Layer, x: Tensor, spatial: nat, ow: nat): Cells<real> {
    (r: nat, q: nat) => if spatial == 0 then 0.0 else TapFlat(l, x, q / spatial, r, q % spatial, ow)
  }

  function TapRow(l: Layer, x: Tensor, ni: nat, r: nat, spatial: nat, ow: nat): (row: seq<real>)
    ensures |row| == spatial && forall t :: 0 <= t < spatial ==> row[t] == TapFlat(l, x, ni, r, t, ow)
  {
    seq(spatial, t requires 0 <= t < spatial => TapFlat(l, x, ni, r, t, ow))
  }

  lemma ColumnsAt(l: Layer, x: Tensor, ni: nat, r: nat, spatial: nat, ow: nat, t: nat)
    requires t < spatial
    ensures Columns(l, x, spatial, ow)(r, ni * spatial + t) == TapFlat(l, x, ni, r, t, ow)
  {
    IxDiv(ni, spatial, t);
  }

  lemma TapRowIsColumns(l: Layer, x: Tensor, ni: nat, r: nat, spatial: nat, ow: nat, off: nat, row: seq<real>)
    requires off == ni * spatial && row == TapRow(l, x, ni, r, spatial, ow)
    ensures forall t :: 0 <= t < |row| ==> row[t] == Columns(l, x, spatial, ow)(r, off + t)
  {
    forall t | 0 <= t < |row| ensures row[t] == Columns(l, x, spatial, ow)(r, off + t) {
      ColumnsAt(l, x, ni, r, spatial, ow, t);
    }
  }

  // ----- the product of weights and columns is the convolution

  function Taps(l: Layer, x: Tensor, ni: nat, o: nat, oy: nat, ox: nat): nat -> real {
    (r: nat) => if l.k == 0 then 0.0 else Get(l.weight, Ix(o, l.Depth(), r)) * Tap(l, x, ni, r, oy, ox)
  }

  lemma TapsAreDirect(l: Layer, x: Tensor, ni: nat, o: nat, oy: nat, ox: nat)
    requires l.k > 0
    ensures Get(l.bias, o) + Sum(Taps(l, x, ni, o, oy, ox), l.Depth()) == Direct(l, x, ni, o, oy, ox)
  {
    var f, k := Taps(l, x, ni, o, oy, ox), l.k;
    SumFlat(f, l.ic * k, k);
    SumFlat(RunSums(f, k), l.ic, k);
    forall ch: nat | ch < l.ic ensures RunSums(RunSums(f, k), k)(ch) == AlongChannels(l, x, ni, o, oy, ox)(ch) {
      TapsOfChannel(l, x, ni, o, oy, ox, ch);
    }
    SumEq(RunSums(RunSums(f, k), k), AlongChannels(l, x, ni, o, oy, ox), l.ic);
  }

  lemma TapsOfChannel(l: Layer, x: Tensor, ni: nat, o: nat, oy: nat, ox: nat, ch: nat)
    requires l.k > 0
    ensures RunSums(RunSums(Taps(l, x, ni, o, oy, ox), l.k), l.k)(ch) == AlongChannels(l, x, ni, o, oy, ox)(ch)
  {
    var f, k := Taps(l, x, ni, o, oy, ox), l.k;
    forall ky: nat | ky < k ensures Run(RunSums(f, k), k, ch)(ky) == AlongY(l, x, ni, o, oy, ox, ch)(ky) {
      TapsOfRow(l, x, ni, o, oy, ox, ch, ky);
    }
    SumEq(Run(RunSums(f, k), k, ch), AlongY(l, x, ni, o, oy, ox, ch), k);
  }

  lemma TapsOfRow(l: Layer, x: Tensor, ni: nat, o: nat, oy: nat, ox: nat, ch: nat, ky: nat)
    requires ky < l.k
    ensures Run(RunSums(Taps(l, x, ni, o, oy, ox), l.k), l.k, ch)(ky) == AlongY(l, x, ni, o, oy, ox, ch)(ky)
  {
    var run := Run(Taps(l, x, ni, o, oy, ox), l.k, Ix(ch, l.k, ky));
    forall kx: nat | kx < l.k ensures run(kx) == AlongX(l, x, ni, o, oy, ox, ch, ky)(kx) {
      TapAt(l, x, ni, ch, ky, kx, oy, ox);
    }
    SumEq(run, AlongX(l, x, ni, o, oy, ox, ch, ky), l.k);
  }

  /** Output position q of channel o, images side by side. */
  function DirectPacked(l: Layer, x: Tensor, spatial: nat, ow: nat): Cells<real> {
    (o: nat, q: nat) =>
      if spatial == 0 || ow == 0 then 0.0 else Direct(l, x, q / spatial, o, q % spatial / ow, q % spatial % ow)
  }

  lemma ProductIsDirect(l: Layer, x: Tensor, col: seq<real>, pack: nat, spatial: nat, ow: nat, o: nat, q: nat)
    requires l.k > 0 && spatial > 0 && ow > 0 && q < pack
    requires Holds(col, l.Depth(), pack, Columns(l, x, spatial, ow))
    ensures RowBias(l.weight, col, l.bias, pack, l.Depth())(o, q) == DirectPacked(l, x, spatial, ow)(o, q)
  {
    var d, ni, t := l.Depth(), q / spatial, q % spatial;
    forall r: nat | r < d ensures Term(l.weight, col, pack, d, o, q)(r) == Taps(l, x, ni, o, t / ow, t % ow)(r) {
      TermIsTap(l, x, col, pack, spatial, ow, o, q, r);
    }
    SumEq(Term(l.weight, col, pack, d, o, q), Taps(l, x, ni, o, t / ow, t % ow), d);
    TapsAreDirect(l, x, ni, o, t / ow, t % ow);
  }

  lemma ColumnIsTap(l: Layer, x: Tensor, col: seq<real>, pack: nat, spatial: nat, ow: nat, q: nat, r: nat)
    requires l.k > 0 && spatial > 0 && ow > 0 && q < pack && r < l.Depth()
    requires Holds(col, l.Depth(), pack, Columns(l, x, spatial, ow))
    ensures Get(col, Ix(r, pack, q)) == Tap(l, x, q / spatial, r, q % spatial / ow, q % spatial % ow)
  {
    assert col[Bounded(r, l.Depth(), pack, q)] == Columns(l, x, spatial, ow)(r, q);
  }

  lemma TermIsTap(l: Layer, x: Tensor, col: seq<real>, pack: nat, spatial: nat, ow: nat, o: nat, q: nat, r: nat)
    requires l.k > 0 && spatial > 0 && ow > 0 && q < pack && r < l.Depth()
    requires Holds(col, l.Depth(), pack, Columns(l, x, spatial, ow))
    ensures Term(l.weight, col, pack, l.Depth(), o, q)(r) ==
      Taps(l, x, q / spatial, o, q % spatial / ow, q % spatial % ow)(r)
  {
    ColumnIsTap(l, x, col, pack, spatial, ow, q, r);
  }

  lemma ProductHolds(l: Layer, x: Tensor, col: seq<real>, out: seq<real>, pack: nat, spatial: nat, ow: nat)
    requires l.k > 0 && spatial > 0 && ow > 0
    requires Holds(col, l.Depth(), pack, Columns(l, x, spatial, ow))
    requires Holds(out, l.oc, pack, RowBias(l.weight, col, l.bias, pack, l.Depth()))
    ensures Holds(out, l.oc, pack, DirectPacked(l, x, spatial, ow))
  {
    forall o: nat, q: nat | o < l.oc && q < pack
      ensures out[Bounded(o, l.oc, pack, q)] == DirectPacked(l, x, spatial, ow)(o, q)
    {
      ProductIsDirect(l, x, col, pack, spatial, ow, o, q);
    }
  }

  // ----- filling the columns

  /** Rows i.. of columns j0..j1 hold zero. */
  ghost predicate Blank(s: seq<real>, m: nat, n: nat, i0: nat, j0: nat, j1: nat) {
    |s| == m * n && forall i: nat, j: nat :: i0 <= i < m && j0 <= j < j1 && j < n ==> s[Bounded(i, m, n, j)] == 0.0
  }

  /** One output row of one tap. */
  function TapLine(l: Layer, x: Tensor, ni: nat, r: nat, oy: nat, ow: nat): (line: seq<real>)
    requires l.k > 0
    ensures |line| == ow && forall ox :: 0 <= ox < ow ==> line[ox] == Tap(l, x, ni, r, oy, ox)
  {
    seq(ow, ox requires 0 <= ox < ow => Tap(l, x, ni, r, oy, ox))
  }

  /** The tap row is its lines one after the other. */
  lemma TapRowLines(l: Layer, x: Tensor, ni: nat, r: nat, oh: nat, ow: nat, oy: nat)
    requires l.k > 0 && oy < oh
    ensures Ix(oy, ow, 0) + ow == Ix(oy + 1, ow, 0) <= oh * ow
    ensures TapRow(l, x, ni, r, oh * ow, ow)[Ix(oy, ow, 0)..Ix(oy, ow, 0) + ow] == TapLine(l, x, ni, r, oy, ow)
  {
    SegmentFits(oh, ow, oy, 0, ow);
    forall ox | 0 <= ox < ow
      ensures TapRow(l, x, ni, r, oh * ow, ow)[Ix(oy, ow, 0) + ox] == Tap(l, x, ni, r, oy, ox)
    {
      IxDiv(oy, ow, ox);
    }
  }

  /** Row `r` of the columns of image `ni`, walked position by position; what lies in the
      padding is skipped and must be zero already. */
  method FillTap(l: Layer, x: Tensor, ni: nat, ch: nat, ky: nat, kx: nat, oh: nat, ow: nat, col: array<real>, at: nat)
    requires l.Fits(x) && ni < x.n && ch < x.c && ky < l.k && kx < l.k
    requires at + oh * ow <= col.Length && forall t :: at <= t < at + oh * ow ==> col[t] == 0.0
    modifies col
    ensures col[..] == Patch(old(col[..]), at, TapRow(l, x, ni, Ix(Ix(ch, l.k, ky), l.k, kx), oh * ow, ow))
  {
    ghost var r, total, first := Ix(Ix(ch, l.k, ky), l.k, kx), oh * ow, col[..];
    ghost var row := TapRow(l, x, ni, r, total, ow);
    var idx := 0;
    for oy := 0 to oh
      invariant idx == Ix(oy, ow, 0) <= total && col[..] == Patch(first, at, row[..idx])
    {
      ghost var before := col[..];
      LineFits(oy, oh, ow, idx, total);
      FillLine(l, x, ni, ch, ky, kx, oy, ow, col, at + idx);
      NextLine(l, x, ni, r, oy, oh, ow, idx, total, first, before, col[..], at, row);
      idx := idx + ow;
    }
    assert row[..total] == row;
  }

  lemma Extend(first: seq<real>, s: seq<real>, t: seq<real>, at: nat, row: seq<real>, k: nat, line: seq<real>)
    requires at + |row| <= |first| && k + |line| <= |row| && row[k..k + |line|] == line
    requires s == Patch(first, at, row[..k]) && at + k + |line| <= |s| && t == Patch(s, at + k, line)
    ensures t == Patch(first, at, row[..k + |line|])
  {
    assert forall x :: k <= x < k + |line| ==> row[x] == row[k..k + |line|][x - k];
  }

  lemma LineFits(oy: nat, oh: nat, ow: nat, idx: nat, total: nat)
    requires oy < oh && idx == Ix(oy, ow, 0) && total == oh * ow
    ensures idx + ow == Ix(oy + 1, ow, 0) <= total
  {
    SegmentFits(oh, ow, oy, 0, ow);
  }

  /** One more output row of a tap. */
  lemma NextLine(l: Layer, x: Tensor, ni: nat, r: nat, oy: nat, oh: nat, ow: nat, idx: nat, total: nat,
                 first: seq<real>, s: seq<real>, t: seq<real>, at: nat, row: seq<real>)
    requires l.k > 0 && oy < oh && idx == Ix(oy, ow, 0) && total == oh * ow && idx + ow <= total
    requires row == TapRow(l, x, ni, r, total, ow) && at + total <= |first| && s == Patch(first, at, row[..idx])
    requires t == Patch(s, at + idx, TapLine(l, x, ni, r, oy, ow))
    ensures t == Patch(first, at, row[..idx + ow])
  {
    TapRowLines(l, x, ni, r, oh, ow, oy);
    Extend(first, s, t, at, row, idx, TapLine(l, x, ni, r, oy, ow));
  }

  method FillLine(l: Layer, x: Tensor, ni: nat, ch: nat, ky: nat, kx: nat, oy: nat, ow: nat, col: array<real>, at: nat)
    requires l.Fits(x) && ni < x.n && ch < x.c && ky < l.k && kx < l.k
    requires at + ow <= col.Length && forall t :: at <= t < at + ow ==> col[t] == 0.0
    modifies col
    ensures col[..] == Patch(old(col[..]), at, TapLine(l, x, ni, Ix(Ix(ch, l.k, ky), l.k, kx), oy, ow))
  {
    ghost var r := Ix(Ix(ch, l.k, ky), l.k, kx);
    var iy := ky - l.pad + oy * l.stride;
    if iy < 0 || iy >= x.h {
      forall ox: nat ensures Tap(l, x, ni, r, oy, ox) == 0.0 {
        TapAt(l, x, ni, ch, ky, kx, oy, ox);
      }
      return;
    }
    for ox := 0 to ow
      invariant forall t :: 0 <= t < col.Length ==>
        col[t] == if at <= t < at + ox then Tap(l, x, ni, r, oy, t - at) else old(col[t])
    {
      TapAt(l, x, ni, ch, ky, kx, oy, ox);
      var iz := kx - l.pad + ox * l.stride;
      if iz >= 0 && iz < x.w {
        PixelFits(x, ni, ch, iy, iz);
        col[at + ox] := x.data[Ix(Ix(ni, x.c, ch), x.h * x.w, Ix(iy, x.w, iz))];
      }
    }
  }

  lemma PixelFits(x: Tensor, ni: nat, ch: nat, y: nat, z: nat)
    requires x.Valid() && ni < x.n && ch < x.c && y < x.h && z < x.w
    ensures Ix(Ix(ni, x.c, ch), x.h * x.w, Ix(y, x.w, z)) < |x.data|
  {
    IxBound(ni, x.n, x.c, ch);
    IxBound(y, x.h, x.w, z);
    IxBound(Ix(ni, x.c, ch), x.n * x.c, x.h * x.w, Ix(y, x.w, z));
  }

  /** Rows before `r` of image `ni`'s columns, which start at `off`, are filled; the rest
      is as in `first`. */
  ghost predicate FilledTo(l: Layer, x: Tensor, ni: nat, spatial: nat, ow: nat, off: nat, pack: nat,
      first: seq<real>, s: seq<real>, r: nat) {
    off == ni * spatial && Overwritten(first, s, l.Depth(), pack, 0, r, off, off + spatial, Columns(l, x, spatial, ow))
  }

  lemma NextTap(l: Layer, x: Tensor, ni: nat, spatial: nat, ow: nat, off: nat, pack: nat, first: seq<real>,
      s: seq<real>, r: nat)
    requires r < l.Depth() && off + spatial <= pack && FilledTo(l, x, ni, spatial, ow, off, pack, first, s, r)
    ensures Ix(r, pack, off) + spatial <= |s|
    ensures FilledTo(l, x, ni, spatial, ow, off, pack, first,
      Patch(s, Ix(r, pack, off), TapRow(l, x, ni, r, spatial, ow)), r + 1)
  {
    var row := TapRow(l, x, ni, r, spatial, ow);
    TapRowIsColumns(l, x, ni, r, spatial, ow, off, row);
    NextRow(first, s, l.Depth(), pack, 0, r, off, off + spatial, row, Columns(l, x, spatial, ow));
  }

  lemma StillBlank(first: seq<real>, s: seq<real>, m: nat, n: nat, r: nat, off: nat, len: nat, v: Cells<real>)
    requires r < m && off + len <= n && Overwritten(first, s, m, n, 0, r, off, off + len, v)
    requires Blank(first, m, n, 0, off, off + len)
    ensures var at := Ix(r, n, off);
      at + len <= |s| && forall t :: at <= t < at + len ==> s[t] == 0.0
  {
    var at := Ix(r, n, off);
    SegmentFits(m, n, r, off, len);
    forall t | at <= t < at + len ensures s[t] == 0.0 {
      assert t == Bounded(r, m, n, off + (t - at));
    }
  }

  lemma TapRowBound(l: Layer, ch: nat, ky: nat, kx: nat)
    requires ch < l.ic && ky < l.k && kx < l.k
    ensures Ix(Ix(ch, l.k, ky), l.k, kx) < l.Depth()
  {
    IxBound(ch, l.ic, l.k, ky);
    IxBound(Ix(ch, l.k, ky), l.ic * l.k, l.k, kx);
  }

  lemma TapOrder(ch: nat, ky: nat, k: nat)
    ensures Ix(Ix(ch, k, ky), k, k) == Ix(Ix(ch, k, ky + 1), k, 0)
    ensures Ix(Ix(ch, k, k), k, 0) == Ix(Ix(ch + 1, k, 0), k, 0)
    ensures Ix(Ix(0, k, 0), k, 0) == 0 && Ix(Ix(ch, k, 0), k, 0) == ch * k * k
  {
  }

  method FillNext(l: Layer, x: Tensor, ni: nat, ch: nat, ky: nat, kx: nat, oh: nat, ow: nat, col: array<real>,
      off: nat, pack: nat, ghost first: seq<real>, ghost r: nat)
    requires l.Fits(x) && ni < x.n && ch < x.c && ky < l.k && kx < l.k && r == Ix(Ix(ch, l.k, ky), l.k, kx)
    requires off + oh * ow <= pack && Blank(first, l.Depth(), pack, 0, off, off + oh * ow)
    requires FilledTo(l, x, ni, oh * ow, ow, off, pack, first, col[..], r)
    modifies col
    ensures FilledTo(l, x, ni, oh * ow, ow, off, pack, first, col[..], r + 1)
  {
    TapRowBound(l, ch, ky, kx);
    StillBlank(first, col[..], l.Depth(), pack, r, off, oh * ow, Columns(l, x, oh * ow, ow));
    NextTap(l, x, ni, oh * ow, ow, off, pack, first, col[..], r);
    FillTap(l, x, ni, ch, ky, kx, oh, ow, col, Ix(Ix(Ix(ch, l.k, ky), l.k, kx), pack, off));
  }

  /** General im2col of one image into its block of the columns. */
  method Im2colInto(l: Layer, x: Tensor, ni: nat, oh: nat, ow: nat, col: array<real>, off: nat, pack: nat)
    requires l.Fits(x) && ni < x.n && off == ni * (oh * ow) && off + oh * ow <= pack && col.Length == l.Depth() * pack
    requires Blank(col[..], l.Depth(), pack, 0, off, off + oh * ow)
    modifies col
    ensures FilledTo(l, x, ni, oh * ow, ow, off, pack, old(col[..]), col[..], l.Depth())
  {
    ghost var r := 0;
    TapOrder(x.c, 0, l.k);
    for ch := 0 to x.c
      invariant r == Ix(Ix(ch, l.k, 0), l.k, 0) && FilledTo(l, x, ni, oh * ow, ow, off, pack, old(col[..]), col[..], r)
    {
      TapOrder(ch, 0, l.k);
      for ky := 0 to l.k
        invariant r == Ix(Ix(ch, l.k, ky), l.k, 0) &&
          FilledTo(l, x, ni, oh * ow, ow, off, pack, old(col[..]), col[..], r)
      {
        TapOrder(ch, ky, l.k);
        for kx := 0 to l.k
          invariant r == Ix(Ix(ch, l.k, ky), l.k, kx) &&
            FilledTo(l, x, ni, oh * ow, ow, off, pack, old(col[..]), col[..], r)
        {
          FillNext(l, x, ni, ch, ky, kx, oh, ow, col, off, pack, old(col[..]), r);
          r := r + 1;
        }
      }
    }
  }

  // ----- 3x3, padding 1, stride 1: whole rows at a time

  predicate Same3x3(l: Layer) {
    l.k == 3 && l.pad == 1 && l.stride == 1
  }

  /** A row moved one right, not at all, or one left. */
  function Shifted(srow: seq<real>, kx: nat): (line: seq<real>)
    requires |srow| >= 1 && kx < 3
    ensures |line| == |srow|
    ensures forall ox :: 0 <= ox < |srow| ==> line[ox] == if 0 <= ox + kx - 1 < |srow| then srow[ox + kx - 1] else 0.0
  {
    if kx == 0 then [0.0] + srow[..|srow| - 1]
    else if kx == 1 then srow
    else srow[1..] + [0.0]
  }

  /** One output row of one tap is an input row shifted, or zero. */
  method CopyLine(l: Layer, x: Tensor, ni: nat, ch: nat, ky: nat, kx: nat, oy: nat, col: array<real>, at: nat)
    requires l.Fits(x) && Same3x3(l) && ni < x.n && ch < x.c && ky < 3 && kx < 3 && oy < x.h
    requires at + x.w <= col.Length
    modifies col
    ensures col[..] == Patch(old(col[..]), at, TapLine(l, x, ni, Ix(Ix(ch, 3, ky), 3, kx), oy, x.w))
  {
    LineTaps(l, x, ni, ch, ky, kx, oy);
    var iy := oy + ky - 1;
    if iy < 0 || iy >= x.h {
      assert TapLine(l, x, ni, Ix(Ix(ch, 3, ky), 3, kx), oy, x.w) == seq(x.w, _ => 0.0);
      CopyInto(col, at, seq(x.w, _ => 0.0));
      return;
    }
    LineIsShifted(l, x, ni, ch, ky, kx, oy, iy);
    var from := Ix(Ix(ni, x.c, ch), x.h * x.w, Ix(iy, x.w, 0));
    CopyInto(col, at, Shifted(x.data[from..from + x.w], kx));
  }

  lemma LineIsShifted(l: Layer, x: Tensor, ni: nat, ch: nat, ky: nat, kx: nat, oy: nat, iy: nat)
    requires l.Fits(x) && Same3x3(l) && ni < x.n && ch < x.c && ky < 3 && kx < 3 && iy == oy + ky - 1 && iy < x.h
    ensures var from := Ix(Ix(ni, x.c, ch), x.h * x.w, Ix(iy, x.w, 0));
      && from + x.w <= |x.data|
      && TapLine(l, x, ni, Ix(Ix(ch, 3, ky), 3, kx), oy, x.w) == Shifted(x.data[from..from + x.w], kx)
  {
    LineTaps(l, x, ni, ch, ky, kx, oy);
    RowFits(x, ni, ch, iy);
  }

  lemma LineTaps(l: Layer, x: Tensor, ni: nat, ch: nat, ky: nat, kx: nat, oy: nat)
    requires Same3x3(l) && ky < 3 && kx < 3
    ensures var line := TapLine(l, x, ni, Ix(Ix(ch, 3, ky), 3, kx), oy, x.w);
      forall ox :: 0 <= ox < x.w ==> line[ox] == Pixel(x, ni, ch, oy + ky - 1, ox + kx - 1)
  {
    forall ox: nat | ox < x.w
      ensures Tap(l, x, ni, Ix(Ix(ch, 3, ky), 3, kx), oy, ox) == Pixel(x, ni, ch, oy + ky - 1, ox + kx - 1)
    {
      TapAt(l, x, ni, ch, ky, kx, oy, ox);
    }
  }

  lemma RowFits(x: Tensor, ni: nat, ch: nat, y: nat)
    requires x.Valid() && ni < x.n && ch < x.c && y < x.h
    ensures var at := Ix(Ix(ni, x.c, ch), x.h * x.w, Ix(y, x.w, 0));
      && at + x.w <= |x.data|
      && forall z :: 0 <= z < x.w ==> Pixel(x, ni, ch, y, z) == x.data[at..at + x.w][z]
  {
    IxBound(ni, x.n, x.c, ch);
    SegmentFits(x.h, x.w, y, 0, x.w);
    SegmentFits(x.n * x.c, x.h * x.w, Ix(ni, x.c, ch), Ix(y, x.w, 0), x.w);
  }

  method CopyTap(l: Layer, x: Tensor, ni: nat, ch: nat, ky: nat, kx: nat, col: array<real>, at: nat)
    requires l.Fits(x) && Same3x3(l) && ni < x.n && ch < x.c && ky < 3 && kx < 3
    requires at + x.h * x.w <= col.Length
    modifies col
    ensures col[..] == Patch(old(col[..]), at, TapRow(l, x, ni, Ix(Ix(ch, 3, ky), 3, kx), x.h * x.w, x.w))
  {
    ghost var r, total, first := Ix(Ix(ch, 3, ky), 3, kx), x.h * x.w, col[..];
    ghost var row := TapRow(l, x, ni, r, total, x.w);
    ghost var idx := 0;
    for oy := 0 to x.h
      invariant idx == Ix(oy, x.w, 0) <= total && col[..] == Patch(first, at, row[..idx])
    {
      CopyTapLine(l, x, ni, ch, ky, kx, oy, col, at, idx, total, first, row);
      idx := idx + x.w;
    }
    assert row[..total] == row;
  }

  method CopyTapLine(l: Layer, x: Tensor, ni: nat, ch: nat, ky: nat, kx: nat, oy: nat, col: array<real>, at: nat,
      ghost idx: nat, ghost total: nat, ghost first: seq<real>, ghost row: seq<real>)
    requires l.Fits(x) && Same3x3(l) && ni < x.n && ch < x.c && ky < 3 && kx < 3 && oy < x.h
    requires idx == Ix(oy, x.w, 0) && total == x.h * x.w && at + total <= col.Length == |first|
    requires row == TapRow(l, x, ni, Ix(Ix(ch, 3, ky), 3, kx), total, x.w) && idx <= total
    requires col[..] == Patch(first, at, row[..idx])
    modifies col
    ensures Ix(oy + 1, x.w, 0) == idx + x.w <= total && col[..] == Patch(first, at, row[..idx + x.w])
  {
    ghost var before := col[..];
    LineFits(oy, x.h, x.w, idx, total);
    CopyLine(l, x, ni, ch, ky, kx, oy, col, at + Ix(oy, x.w, 0));
    NextLine(l, x, ni, Ix(Ix(ch, 3, ky), 3, kx), oy, x.h, x.w, idx, total, first, before, col[..], at, row);
  }

  method CopyNext(l: Layer, x: Tensor, ni: nat, ch: nat, ky: nat, kx: nat, col: array<real>, off: nat, pack: nat,
      ghost first: seq<real>, ghost r: nat)
    requires l.Fits(x) && Same3x3(l) && ni < x.n && ch < x.c && ky < 3 && kx < 3 && r == Ix(Ix(ch, 3, ky), 3, kx)
    requires off + x.h * x.w <= pack && FilledTo(l, x, ni, x.h * x.w, x.w, off, pack, first, col[..], r)
    modifies col
    ensures FilledTo(l, x, ni, x.h * x.w, x.w, off, pack, first, col[..], r + 1)
  {
    TapRowBound(l, ch, ky, kx);
    NextTap(l, x, ni, x.h * x.w, x.w, off, pack, first, col[..], r);
    CopyTap(l, x, ni, ch, ky, kx, col, Ix(Ix(Ix(ch, 3, ky), 3, kx), pack, off));
  }

  /** The 3x3 case needs nothing of what the buffer held. */
  method Im2col3x3(l: Layer, x: Tensor, ni: nat, col: array<real>, off: nat, pack: nat)
    requires l.Fits(x) && Same3x3(l) && ni < x.n && off == ni * (x.h * x.w) && off + x.h * x.w <= pack &&
      col.Length == l.Depth() * pack
    modifies col
    ensures FilledTo(l, x, ni, x.h * x.w, x.w, off, pack, old(col[..]), col[..], l.Depth())
  {
    ghost var r := 0;
    TapOrder(x.c, 0, 3);
    for ch := 0 to x.c
      invariant r == Ix(Ix(ch, 3, 0), 3, 0) && FilledTo(l, x, ni, x.h * x.w, x.w, off, pack, old(col[..]), col[..], r)
    {
      TapOrder(ch, 0, 3);
      for ky := 0 to 3
        invariant r == Ix(Ix(ch, 3, ky), 3, 0) &&
          FilledTo(l, x, ni, x.h * x.w, x.w, off, pack, old(col[..]), col[..], r)
      {
        TapOrder(ch, ky, 3);
        for kx := 0 to 3
          invariant r == Ix(Ix(ch, 3, ky), 3, kx) &&
            FilledTo(l, x, ni, x.h * x.w, x.w, off, pack, old(col[..]), col[..], r)
        {
          CopyNext(l, x, ni, ch, ky, kx, col, off, pack, old(col[..]), r);
          r := r + 1;
        }
      }
    }
  }

  // ----- 1x1: the image is its own column matrix

  predicate Direct1x1(l: Layer) {
    l.k == 1 && l.pad == 0 && l.stride == 1
  }

  /** A channel plane is the row of its only tap. */
  lemma PlaneIsTapRow(l: Layer, x: Tensor, ni: nat, ch: nat)
    requires l.Fits(x) && Direct1x1(l) && ni < x.n && ch < x.c
    ensures var at := Ix(Ix(ni, x.c, ch), x.h * x.w, 0);
      at + x.h * x.w <= |x.data| && x.data[at..at + x.h * x.w] == TapRow(l, x, ni, ch, x.h * x.w, x.w)
  {
    IxBound(ni, x.n, x.c, ch);
    SegmentFits(x.n * x.c, x.h * x.w, Ix(ni, x.c, ch), 0, x.h * x.w);
    var at := Ix(Ix(ni, x.c, ch), x.h * x.w, 0);
    forall t | 0 <= t < x.h * x.w ensures x.data[at + t] == TapFlat(l, x, ni, ch, t, x.w) {
      IxSplit(t, x.h, x.w);
      TapAt(l, x, ni, ch, 0, 0, t / x.w, t % x.w);
      assert Ix(Ix(ch, 1, 0), 1, 0) == ch;
    }
  }

  /** [n, c, h*w] to [c, n*h*w]. */
  method PackImages(l: Layer, x: Tensor, col: array<real>, spatial: nat)
    requires l.Fits(x) && Direct1x1(l) && spatial == x.h * x.w && col.Length == x.c * (x.n * spatial)
    modifies col
    ensures Holds(col[..], x.c, x.n * spatial, Columns(l, x, spatial, x.w))
  {
    ghost var v, pack := Columns(l, x, spatial, x.w), x.n * spatial;
    NothingOverwritten(col[..], x.c, pack, 0, x.c, 0, 0, v);
    for ni := 0 to x.n
      invariant Overwritten(old(col[..]), col[..], x.c, pack, 0, x.c, 0, ni * spatial, v)
    {
      ghost var before := col[..];
      PackImage(l, x, ni, col, spatial);
      Blocks(ni, x.n, spatial);
      MoreColumns(old(col[..]), before, col[..], x.c, pack, 0, x.c, 0, ni * spatial, (ni + 1) * spatial, v);
    }
    AllOverwritten(old(col[..]), col[..], x.c, pack, v);
  }

  lemma Blocks(ni: nat, n: nat, spatial: nat)
    requires ni < n
    ensures (ni + 1) * spatial == ni * spatial + spatial <= n * spatial
  {
  }

  method PackImage(l: Layer, x: Tensor, ni: nat, col: array<real>, spatial: nat)
    requires l.Fits(x) && Direct1x1(l) && ni < x.n && spatial == x.h * x.w && col.Length == x.c * (x.n * spatial)
    modifies col
    ensures Overwritten(old(col[..]), col[..], x.c, x.n * spatial, 0, x.c, ni * spatial, ni * spatial + spatial,
      Columns(l, x, spatial, x.w))
  {
    var pack, off := x.n * spatial, ni * spatial;
    ghost var v := Columns(l, x, spatial, x.w);
    Blocks(ni, x.n, spatial);
    NothingOverwritten(col[..], x.c, pack, 0, 0, off, off + spatial, v);
    for ch := 0 to x.c
      invariant Overwritten(old(col[..]), col[..], x.c, pack, 0, ch, off, off + spatial, v)
    {
      PlaneIsTapRow(l, x, ni, ch);
      var src := Ix(Ix(ni, x.c, ch), spatial, 0);
      var plane := x.data[src..src + spatial];
      TapRowIsColumns(l, x, ni, ch, spatial, x.w, off, plane);
      NextRow(old(col[..]), col[..], x.c, pack, 0, ch, off, off + spatial, plane, v);
      CopyInto(col, Ix(ch, pack, off), plane);
    }
  }

  // ----- back to one image after the other

  /** Row ni*oc + o of the output, before or after the rectifier. */
  function Output(l: Layer, x: Tensor, spatial: nat, ow: nat, relu: bool): Cells<real> {
    (row: nat, t: nat) =>
      if l.oc == 0 || ow == 0 then 0.0 else Act(relu, Direct(l, x, row / l.oc, row % l.oc, t / ow, t % ow))
  }

  function Act(relu: bool, v: real): real {
    if relu && v < 0.0 then 0.0 else v
  }

  /** Channel `o` of image `ni`, cut out of the packed product. */
  lemma UnpackedRow(l: Layer, x: Tensor, src: seq<real>, n: nat, spatial: nat, ow: nat, ni: nat, o: nat)
    requires ni < n && o < l.oc && spatial > 0 && ow > 0 &&
      Holds(src, l.oc, n * spatial, DirectPacked(l, x, spatial, ow))
    ensures var at := Ix(o, n * spatial, ni * spatial);
      && at + spatial <= |src|
      && forall t :: 0 <= t < spatial ==>
        src[at..at + spatial][t] == Output(l, x, spatial, ow, false)(Ix(ni, l.oc, o), t)
  {
    var at := Ix(o, n * spatial, ni * spatial);
    Blocks(ni, n, spatial);
    SegmentFits(l.oc, n * spatial, o, ni * spatial, spatial);
    IxDiv(ni, l.oc, o);
    forall t | 0 <= t < spatial
      ensures src[at + t] == Output(l, x, spatial, ow, false)(Ix(ni, l.oc, o), t)
    {
      IxDiv(ni, spatial, t);
      assert at + t == Bounded(o, l.oc, n * spatial, ni * spatial + t);
    }
  }

  /** [c, n*h*w] to [n, c, h*w]. */
  method Unpack(l: Layer, x: Tensor, src: seq<real>, y: array<real>, spatial: nat, ow: nat)
    requires spatial > 0 && ow > 0 && Holds(src, l.oc, x.n * spatial, DirectPacked(l, x, spatial, ow))
    requires y.Length == (x.n * l.oc) * spatial
    modifies y
    ensures Holds(y[..], x.n * l.oc, spatial, Output(l, x, spatial, ow, false))
  {
    ghost var v := Output(l, x, spatial, ow, false);
    ghost var first, rows, row := y[..], x.n * l.oc, 0;
    NothingOverwritten(first, rows, spatial, 0, 0, 0, spatial, v);
    for ni := 0 to x.n
      invariant row == Ix(ni, l.oc, 0) && Overwritten(first, y[..], rows, spatial, 0, row, 0, spatial, v)
    {
      for o := 0 to l.oc
        invariant row == Ix(ni, l.oc, o) && Overwritten(first, y[..], rows, spatial, 0, row, 0, spatial, v)
      {
        UnpackRow(l, x, src, y, spatial, ow, ni, o, first, rows, row);
        row := row + 1;
      }
    }
    assert row == rows;
    AllOverwritten(first, y[..], rows, spatial, v);
  }

  /** Channel `o` of image `ni`, in its place. */
  method UnpackRow(l: Layer, x: Tensor, src: seq<real>, y: array<real>, spatial: nat, ow: nat, ni: nat, o: nat,
                   ghost first: seq<real>, ghost rows: nat, ghost row: nat)
    requires spatial > 0 && ow > 0 && Holds(src, l.oc, x.n * spatial, DirectPacked(l, x, spatial, ow))
    requires ni < x.n && o < l.oc && row == Ix(ni, l.oc, o) && rows == x.n * l.oc
    requires Overwritten(first, y[..], rows, spatial, 0, row, 0, spatial, Output(l, x, spatial, ow, false))
    modifies y
    ensures Overwritten(first, y[..], rows, spatial, 0, row + 1, 0, spatial, Output(l, x, spatial, ow, false))
  {
    UnpackedRow(l, x, src, x.n, spatial, ow, ni, o);
    IxBound(ni, x.n, l.oc, o);
    var at := Ix(o, x.n * spatial, ni * spatial);
    var part := src[at..at + spatial];
    NextRow(first, y[..], rows, spatial, 0, row, 0, spatial, part, Output(l, x, spatial, ow, false));
    CopyInto(y, Ix(Ix(ni, l.oc, o), spatial, 0), part);
  }

  method ReluInPlace(y: array<real>)
    modifies y
    ensures forall i :: 0 <= i < y.Length ==> y[i] == Act(true, old(y[i]))
  {
    for i := 0 to y.Length
      invariant forall j :: 0 <= j < y.Length ==> y[j] == if j < i then Act(true, old(y[j])) else old(y[j])
    {
      if y[i] < 0.0 { y[i] := 0.0; }
    }
  }

  // ----- the whole layer

  lemma OutSame(l: Layer, x: Tensor)
    requires l.Fits(x) && (Same3x3(l) || Direct1x1(l))
    ensures l.OutH(x) == x.h && l.OutW(x) == x.w
  {
  }

  method FillImage(l: Layer, x: Tensor, ni: nat, oh: nat, ow: nat, col: array<real>, off: nat, pack: nat)
    requires l.Fits(x) && ni < x.n && oh == l.OutH(x) && ow == l.OutW(x)
    requires off == ni * (oh * ow) && off + oh * ow <= pack && col.Length == l.Depth() * pack
    requires Same3x3(l) || Blank(col[..], l.Depth(), pack, 0, off, off + oh * ow)
    modifies col
    ensures FilledTo(l, x, ni, oh * ow, ow, off, pack, old(col[..]), col[..], l.Depth())
  {
    if l.k == 3 && l.pad == 1 && l.stride == 1 {
      OutSame(l, x);
      Im2col3x3(l, x, ni, col, off, pack);
    } else {
      Im2colInto(l, x, ni, oh, ow, col, off, pack);
    }
  }

  method Fill(col: array<real>, v: real)
    modifies col
    ensures forall i :: 0 <= i < col.Length ==> col[i] == v
  {
    for i := 0 to col.Length
      invariant forall j :: 0 <= j < i ==> col[j] == v
    {
      col[i] := v;
    }
  }

  /** One image whose planes are the columns already. */
  lemma PlanesAreColumns(l: Layer, x: Tensor)
    requires l.Fits(x) && Direct1x1(l) && x.n == 1
    ensures Holds(x.data, x.c, x.h * x.w, Columns(l, x, x.h * x.w, x.w))
  {
    var spatial := x.h * x.w;
    forall ch: nat, t: nat | ch < x.c && t < spatial
      ensures x.data[Bounded(ch, x.c, spatial, t)] == Columns(l, x, spatial, x.w)(ch, t)
    {
      PlaneIsTapRow(l, x, 0, ch);
      ColumnsAt(l, x, 0, ch, spatial, x.w, t);
      assert Ix(Ix(0, x.c, ch), spatial, 0) + t == Ix(ch, spatial, t);
      assert x.data[Ix(ch, spatial, 0)..Ix(ch, spatial, 0) + spatial][t] == x.data[Ix(ch, spatial, t)];
    }
  }

  lemma PackedIsOutput(l: Layer, x: Tensor, y: seq<real>, spatial: nat, ow: nat)
    requires spatial > 0 && ow > 0 && Holds(y, l.oc, spatial, DirectPacked(l, x, spatial, ow))
    ensures Holds(y, 1 * l.oc, spatial, Output(l, x, spatial, ow, false))
  {
    forall o: nat, t: nat | o < l.oc && t < spatial
      ensures y[Bounded(o, l.oc, spatial, t)] == Output(l, x, spatial, ow, false)(o, t)
    {
      IxDiv(0, l.oc, o);
      IxDiv(0, spatial, t);
    }
  }

  /** One image: straight into `y`. `col` is scratch with any contents. */
  method ForwardOne(l: Layer, x: Tensor, y: array<real>, col: array<real>, oh: nat, ow: nat)
    requires l.Fits(x) && x.n == 1 && oh == l.OutH(x) && ow == l.OutW(x) && y != col
    requires y.Length == l.oc * (oh * ow) && col.Length == l.Depth() * (oh * ow)
    modifies y, col
    ensures Holds(y[..], l.oc, oh * ow, DirectPacked(l, x, oh * ow, ow))
  {
    var spatial := oh * ow;
    SegmentFits(oh, ow, 0, 0, 1);
    if l.k == 1 && l.pad == 0 && l.stride == 1 {
      OutSame(l, x);
      PlanesAreColumns(l, x);
      DepthOne(l);
      GemmBiasRow(l.weight, x.data, l.bias, y, l.oc, spatial, l.Depth());
      ProductHolds(l, x, x.data, y[..], spatial, spatial, ow);
    } else {
      if !(l.k == 3 && l.pad == 1 && l.stride == 1) {
        Fill(col, 0.0);
      }
      ghost var first := col[..];
      FillImage(l, x, 0, oh, ow, col, 0, spatial);
      AllOverwritten(first, col[..], l.Depth(), spatial, Columns(l, x, spatial, ow));
      GemmBiasRow(l.weight, col[..], l.bias, y, l.oc, spatial, l.Depth());
      ProductHolds(l, x, col[..], y[..], spatial, spatial, ow);
    }
  }

  lemma DepthOne(l: Layer)
    requires l.k == 1
    ensures l.Depth() == l.ic
  {
  }

  /** All images side by side in the columns. */
  method FillBatch(l: Layer, x: Tensor, oh: nat, ow: nat, spatial: nat, pack: nat, col: array<real>)
    requires l.Fits(x) && oh == l.OutH(x) && ow == l.OutW(x)
    requires spatial == oh * ow && pack == x.n * spatial && col.Length == l.Depth() * pack
    modifies col
    ensures Holds(col[..], l.Depth(), pack, Columns(l, x, spatial, ow))
  {
    if l.k == 1 && l.pad == 0 && l.stride == 1 {
      OutSame(l, x);
      DepthOne(l);
      PackImages(l, x, col, spatial);
      return;
    }
    Fill(col, 0.0);
    ghost var zeros, v := col[..], Columns(l, x, spatial, ow);
    NothingOverwritten(zeros, l.Depth(), pack, 0, l.Depth(), 0, 0, v);
    for ni := 0 to x.n
      invariant Overwritten(zeros, col[..], l.Depth(), pack, 0, l.Depth(), 0, ni * spatial, v)
    {
      ghost var before := col[..];
      Blocks(ni, x.n, spatial);
      FillImage(l, x, ni, oh, ow, col, ni * spatial, pack);
      MoreColumns(zeros, before, col[..], l.Depth(), pack, 0, l.Depth(), 0, ni * spatial, (ni + 1) * spatial, v);
    }
    AllOverwritten(zeros, col[..], l.Depth(), pack, v);
  }

  /** Every path gives the direct convolution, rectified if asked, whatever the output
      and the scratch buffers held. */
  method Forward(l: Layer, x: Tensor, y: array<real>, col: array<real>, gemmOut: array<real>, oh: nat, ow: nat,
      relu: bool)
    requires l.Fits(x) && oh == l.OutH(x) && ow == l.OutW(x) && y != col && y != gemmOut && col != gemmOut
    requires y.Length == (x.n * l.oc) * (oh * ow)
    requires col.Length == l.Depth() * (x.n * (oh * ow)) && gemmOut.Length == l.oc * (x.n * (oh * ow))
    modifies y, col, gemmOut
    ensures Holds(y[..], x.n * l.oc, oh * ow, Output(l, x, oh * ow, ow, relu))
  {
    var spatial := oh * ow;
    SegmentFits(oh, ow, 0, 0, 1);
    if x.n == 1 {
      ForwardOne(l, x, y, col, oh, ow);
      PackedIsOutput(l, x, y[..], spatial, ow);
    } else {
      FillBatch(l, x, oh, ow, spatial, x.n * spatial, col);
      GemmBiasRow(l.weight, col[..], l.bias, gemmOut, l.oc, x.n * spatial, l.Depth());
      ProductHolds(l, x, col[..], gemmOut[..], x.n * spatial, spatial, ow);
      Unpack(l, x, gemmOut[..], y, spatial, ow);
    }
    if relu {
      ghost var before := y[..];
      ReluInPlace(y);
      Rectified(l, x, before, y[..], spatial, ow);
    }
  }

  lemma Rectified(l: Layer, x: Tensor, s: seq<real>, t: seq<real>, spatial: nat, ow: nat)
    requires Holds(s, x.n * l.oc, spatial, Output(l, x, spatial, ow, false))
    requires |t| == |s| && forall i :: 0 <= i < |s| ==> t[i] == Act(true, s[i])
    ensures Holds(t, x.n * l.oc, spatial, Output(l, x, spatial, ow, true))
  {
    var before, after := Output(l, x, spatial, ow, false), Output(l, x, spatial, ow, true);
    forall row: nat, q: nat | row < x.n * l.oc && q < spatial
      ensures t[Bounded(row, x.n * l.oc, spatial, q)] == after(row, q)
    {
      assert s[Bounded(row, x.n * l.oc, spatial, q)] == before(row, q);
    }
  }

  /** The output has a position for exactly the windows that fit the padded image. */
  lemma PositionsCount(l: Layer, x: Tensor, i: nat)
    requires l.Fits(x)
    ensures i < l.OutH(x) <==> i * l.stride + l.k <= x.h + 2 * l.pad
    ensures i < l.OutW(x) <==> i * l.stride + l.k <= x.w + 2 * l.pad
  {
    WindowCount(x.h + 2 * l.pad, l.k, l.stride, i);
    WindowCount(x.w + 2 * l.pad, l.k, l.stride, i);
  }

  /** What that says of one output value. */
  lemma OutputAt(l: Layer, x: Tensor, y: seq<real>, oh: nat, ow: nat, relu: bool, ni: nat, o: nat, oy: nat, ox: nat)
    requires Holds(y, x.n * l.oc, oh * ow, Output(l, x, oh * ow, ow, relu))
    requires ni < x.n && o < l.oc && oy < oh && ox < ow
    ensures var i := Ix(Ix(ni, l.oc, o), oh * ow, Ix(oy, ow, ox));
      i < |y| && y[i] == if relu && Direct(l, x, ni, o, oy, ox) < 0.0 then 0.0 else Direct(l, x, ni, o, oy, ox)
  {
    IxBound(ni, x.n, l.oc, o);
    IxBound(oy, oh, ow, ox);
    IxDiv(ni, l.oc, o);
    IxDiv(oy, ow, ox);
    assert y[Bounded(Ix(ni, l.oc, o), x.n * l.oc, oh * ow, Ix(oy, ow, ox))] ==
      Output(l, x, oh * ow, ow, relu)(Ix(ni, l.oc, o), Ix(oy, ow, ox));
  }
}

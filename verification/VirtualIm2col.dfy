/** The INT8 convolution without a column matrix: a padded copy of the image and, for
    each row and column of the virtual columns, offsets into it. */
module VirtualIm2col {
  import opened Flat
  import opened Gemm
  import opened Conv

  const I32_MAX := 0x7FFF_FFFF

  /** Kernel, stride and padding over one image of `c` channels. */
  datatype Shape = Shape(c: nat, h: nat, w: nat, k: nat, stride: nat, pad: nat) {
    ghost predicate Valid() {
      k > 0 && stride > 0 && k <= Hp() && k <= Wp()
    }

    function Hp(): nat {
      h + 2 * pad
    }

    function Wp(): nat {
      w + 2 * pad
    }

    function Oh(): (oh: nat)
      requires k <= Hp() && stride > 0
      ensures oh >= 1
    {
      (Hp() - k) / stride + 1
    }

    function Ow(): (ow: nat)
      requires k <= Wp() && stride > 0
      ensures ow >= 1
    {
      (Wp() - k) / stride + 1
    }

    function Depth(): nat {
      c * k * k
    }
  }

  // ----- the padded image

  function GetInt(s: seq<int>, x: nat): int {
    if x < |s| then s[x] else 0
  }

  /** The input pixel, or the zero point outside. */
  function Sample(s: Shape, src: seq<int>, zp: int, ch: nat, y: int, z: int): int {
    if 0 <= y < s.h && 0 <= z < s.w then GetInt(src, Ix(ch, s.h * s.w, Ix(y, s.w, z))) else zp
  }

  /** Row ch*hp + y of the padded image. */
  function Padded(s: Shape, src: seq<int>, zp: int): Cells<int> {
    (row: nat, z: nat) => if s.Hp() == 0 then zp else Sample(s, src, zp, row / s.Hp(), row % s.Hp() - s.pad, z - s.pad)
  }

  lemma PaddedAt(s: Shape, src: seq<int>, zp: int, ch: nat, y: nat, z: nat)
    requires y < s.Hp()
    ensures Padded(s, src, zp)(Ix(ch, s.Hp(), y), z) == Sample(s, src, zp, ch, y - s.pad, z - s.pad)
  {
    IxDiv(ch, s.Hp(), y);
  }

  /** All cells hold the zero point except rows before `done`, which are padded rows. */
  ghost predicate PaddedTo(s: Shape, src: seq<int>, zp: int, t: seq<int>, done: nat) {
    && |t| == (s.c * s.Hp()) * s.Wp()
    && forall row: nat, z: nat :: row < s.c * s.Hp() && z < s.Wp() ==>
         t[Bounded(row, s.c * s.Hp(), s.Wp(), z)] == if row < done then Padded(s, src, zp)(row, z) else zp
  }

  /** A row of pure padding is there already. */
  lemma PaddingRow(s: Shape, src: seq<int>, zp: int, t: seq<int>, ch: nat, y: nat)
    requires ch < s.c && y < s.Hp() && !(s.pad <= y < s.pad + s.h) && PaddedTo(s, src, zp, t, Ix(ch, s.Hp(), y))
    ensures PaddedTo(s, src, zp, t, Ix(ch, s.Hp(), y) + 1)
  {
    var row := Ix(ch, s.Hp(), y);
    forall z: nat | z < s.Wp() ensures Padded(s, src, zp)(row, z) == zp {
      PaddedAt(s, src, zp, ch, y, z);
    }
  }

  /** Copying an input row in place makes it a padded row. */
  lemma ImageRow(s: Shape, src: seq<int>, zp: int, t: seq<int>, ch: nat, y: nat, line: seq<int>)
    requires ch < s.c && y < s.h && |src| == s.c * (s.h * s.w)
    requires |line| == s.w && forall z :: 0 <= z < s.w ==> line[z] == GetInt(src, Ix(ch, s.h * s.w, Ix(y, s.w, z)))
    requires PaddedTo(s, src, zp, t, Ix(ch, s.Hp(), y + s.pad))
    ensures var row := Ix(ch, s.Hp(), y + s.pad);
      && Ix(row, s.Wp(), s.pad) + s.w <= |t|
      && PaddedTo(s, src, zp, Patch(t, Ix(row, s.Wp(), s.pad), line), row + 1)
  {
    var row, v := Ix(ch, s.Hp(), y + s.pad), Padded(s, src, zp);
    IxBound(ch, s.c, s.Hp(), y + s.pad);
    PaddedLine(s, src, zp, ch, y, line, row, v);
    LinePlaced(s, src, zp, t, row, line, v);
  }

  lemma LinePlaced(s: Shape, src: seq<int>, zp: int, t: seq<int>, row: nat, line: seq<int>, v: Cells<int>)
    requires row < s.c * s.Hp() && |line| == s.w && v == Padded(s, src, zp) && PaddedTo(s, src, zp, t, row)
    requires forall z: nat :: z < s.Wp() ==> v(row, z) == if s.pad <= z < s.pad + s.w then line[z - s.pad] else zp
    ensures Ix(row, s.Wp(), s.pad) + s.w <= |t|
    ensures PaddedTo(s, src, zp, Patch(t, Ix(row, s.Wp(), s.pad), line), row + 1)
  {
    assert forall z :: 0 <= z < |line| ==> line[z] == v(row, s.pad + z);
    PatchRow(t, s.c * s.Hp(), s.Wp(), row, s.pad, line, v);
    RowDone(s, src, zp, t, Patch(t, Ix(row, s.Wp(), s.pad), line), row, v, s.pad + s.w);
  }

  lemma PaddedLine(s: Shape, src: seq<int>, zp: int, ch: nat, y: nat, line: seq<int>, row: nat, v: Cells<int>)
    requires y < s.h && row == Ix(ch, s.Hp(), y + s.pad) && v == Padded(s, src, zp)
    requires |line| == s.w && forall z :: 0 <= z < s.w ==> line[z] == GetInt(src, Ix(ch, s.h * s.w, Ix(y, s.w, z)))
    ensures forall z: nat :: z < s.Wp() ==> v(row, z) == if s.pad <= z < s.pad + s.w then line[z - s.pad] else zp
  {
    forall z: nat | z < s.Wp() ensures v(row, z) == if s.pad <= z < s.pad + s.w then line[z - s.pad] else zp {
      PaddedAt(s, src, zp, ch, y + s.pad, z);
    }
  }

  lemma RowDone(s: Shape, src: seq<int>, zp: int, t: seq<int>, u: seq<int>, row: nat, v: Cells<int>, end: nat)
    requires row < s.c * s.Hp() && s.pad <= end <= s.Wp() && v == Padded(s, src, zp) && PaddedTo(s, src, zp, t, row)
    requires forall z: nat :: z < s.Wp() && !(s.pad <= z < end) ==> v(row, z) == zp
    requires Overwritten(t, u, s.c * s.Hp(), s.Wp(), row, row + 1, s.pad, end, v)
    ensures PaddedTo(s, src, zp, u, row + 1)
  {
  }

  method CopyRow(s: Shape, src: seq<int>, zp: int, ch: nat, y: nat, dst: array<int>)
    requires ch < s.c && y < s.h && |src| == s.c * (s.h * s.w)
    requires PaddedTo(s, src, zp, dst[..], Ix(ch, s.Hp(), y + s.pad))
    modifies dst
    ensures PaddedTo(s, src, zp, dst[..], Ix(ch, s.Hp(), y + s.pad) + 1)
  {
    SegmentFits(s.h, s.w, y, 0, s.w);
    SegmentFits(s.c, s.h * s.w, ch, Ix(y, s.w, 0), s.w);
    var from := Ix(ch, s.h * s.w, Ix(y, s.w, 0));
    var line := src[from..from + s.w];
    ImageRow(s, src, zp, dst[..], ch, y, line);
    CopyInto(dst, Ix(Ix(ch, s.Hp(), y + s.pad), s.Wp(), s.pad), line);
  }

  lemma {:induction false} PaddingRows(s: Shape, src: seq<int>, zp: int, t: seq<int>, ch: nat, y0: nat, y1: nat)
    requires ch < s.c && y0 <= y1 <= s.Hp() && (y1 <= s.pad || y0 >= s.pad + s.h) &&
      PaddedTo(s, src, zp, t, Ix(ch, s.Hp(), y0))
    ensures PaddedTo(s, src, zp, t, Ix(ch, s.Hp(), y1))
    decreases y1 - y0
  {
    if y0 < y1 {
      PaddingRow(s, src, zp, t, ch, y0);
      PaddingRows(s, src, zp, t, ch, y0 + 1, y1);
    }
  }

  /** Fill with the zero point, then copy the image rows: every cell of the padded image
      is right, whatever the buffer held. */
  method CopyPadded(s: Shape, src: seq<int>, zp: int, dst: array<int>)
    requires |src| == s.c * (s.h * s.w) && dst.Length == (s.c * s.Hp()) * s.Wp()
    modifies dst
    ensures Holds(dst[..], s.c * s.Hp(), s.Wp(), Padded(s, src, zp))
  {
    for i := 0 to dst.Length
      invariant forall j :: 0 <= j < i ==> dst[j] == zp
    {
      dst[i] := zp;
    }
    for ch := 0 to s.c
      invariant PaddedTo(s, src, zp, dst[..], Ix(ch, s.Hp(), 0))
    {
      PaddingRows(s, src, zp, dst[..], ch, 0, s.pad);
      for y := 0 to s.h
        invariant PaddedTo(s, src, zp, dst[..], Ix(ch, s.Hp(), y + s.pad))
      {
        CopyRow(s, src, zp, ch, y, dst);
      }
      PaddingRows(s, src, zp, dst[..], ch, s.h + s.pad, s.Hp());
      assert Ix(ch, s.Hp(), s.Hp()) == Ix(ch + 1, s.Hp(), 0);
    }
    assert Ix(s.c, s.Hp(), 0) == s.c * s.Hp();
  }

  // ----- offsets

  /** Offsets of the virtual matrix: channel, row and column part of each tap, row and
      column part of each output position. */
  datatype Offsets = Offsets(rowC: seq<int>, rowY: seq<int>, rowX: seq<int>, colY: seq<int>, colX: seq<int>)

  function Larger(a: nat, b: nat): nat {
    if a > b then a else b
  }

  /** The offsets of tap r, or the sentinel. */
  function RowOffsets(s: Shape, r: nat): (int, int, int) {
    if s.k == 0 || r >= s.Depth() then (I32_MAX, I32_MAX, I32_MAX)
    else ((r / s.k / s.k) * (s.Hp() * s.Wp()), (r / s.k % s.k) * s.Wp(), r % s.k)
  }

  /** The offsets of output position q, or the sentinel. */
  function ColOffsets(s: Shape, oh: nat, ow: nat, q: nat): (int, int) {
    if ow == 0 || q >= oh * ow then (I32_MAX, I32_MAX) else ((q / ow * s.stride) * s.Wp(), q % ow * s.stride)
  }

  ghost predicate RowsCorrect(s: Shape, rowC: seq<int>, rowY: seq<int>, rowX: seq<int>, len: nat) {
    |rowC| == |rowY| == |rowX| == len && forall r: nat :: r < len ==> (rowC[r], rowY[r], rowX[r]) == RowOffsets(s, r)
  }

  ghost predicate ColsCorrect(s: Shape, oh: nat, ow: nat, colY: seq<int>, colX: seq<int>, len: nat) {
    |colY| == |colX| == len && forall q: nat :: q < len ==> (colY[q], colX[q]) == ColOffsets(s, oh, ow, q)
  }

  /** One entry per tap and per position, then the sentinel up to the padded counts. */
  ghost predicate Correct(s: Shape, oh: nat, ow: nat, rowsPad: nat, colsPad: nat, f: Offsets) {
    && RowsCorrect(s, f.rowC, f.rowY, f.rowX, Larger(s.Depth(), rowsPad))
    && ColsCorrect(s, oh, ow, f.colY, f.colX, Larger(oh * ow, colsPad))
  }

  method FillRowOffsets(s: Shape, rowsPad: nat) returns (rowC: seq<int>, rowY: seq<int>, rowX: seq<int>)
    ensures RowsCorrect(s, rowC, rowY, rowX, Larger(s.Depth(), rowsPad))
  {
    rowC, rowY, rowX := [], [], [];
    TapOrder(s.c, 0, s.k);
    for ch := 0 to s.c
      invariant RowsCorrect(s, rowC, rowY, rowX, Ix(Ix(ch, s.k, 0), s.k, 0))
    {
      TapOrder(ch, 0, s.k);
      for ky := 0 to s.k
        invariant RowsCorrect(s, rowC, rowY, rowX, Ix(Ix(ch, s.k, ky), s.k, 0))
      {
        TapOrder(ch, ky, s.k);
        for kx := 0 to s.k
          invariant RowsCorrect(s, rowC, rowY, rowX, Ix(Ix(ch, s.k, ky), s.k, kx))
        {
          NextRowOffsets(s, rowC, rowY, rowX, ch, ky, kx);
          rowC := rowC + [ch * (s.Hp() * s.Wp())];
          rowY := rowY + [ky * s.Wp()];
          rowX := rowX + [kx];
        }
      }
    }
    while |rowC| < rowsPad
      invariant s.Depth() <= |rowC| <= Larger(s.Depth(), rowsPad) && RowsCorrect(s, rowC, rowY, rowX, |rowC|)
    {
      rowC, rowY, rowX := rowC + [I32_MAX], rowY + [I32_MAX], rowX + [I32_MAX];
    }
  }

  lemma NextRowOffsets(s: Shape, rowC: seq<int>, rowY: seq<int>, rowX: seq<int>, ch: nat, ky: nat, kx: nat)
    requires ch < s.c && ky < s.k && kx < s.k && RowsCorrect(s, rowC, rowY, rowX, Ix(Ix(ch, s.k, ky), s.k, kx))
    ensures RowsCorrect(s, rowC + [ch * (s.Hp() * s.Wp())], rowY + [ky * s.Wp()], rowX + [kx],
      Ix(Ix(ch, s.k, ky), s.k, kx + 1))
  {
    TapIndex(s, ch, ky, kx);
    assert RowOffsets(s, |rowC|) == (ch * (s.Hp() * s.Wp()), ky * s.Wp(), kx);
    assert Ix(Ix(ch, s.k, ky), s.k, kx + 1) == |rowC| + 1;
  }

  lemma TapIndex(s: Shape, ch: nat, ky: nat, kx: nat)
    requires ch < s.c && ky < s.k && kx < s.k
    ensures var r := Ix(Ix(ch, s.k, ky), s.k, kx);
      r < s.Depth() && r / s.k / s.k == ch && r / s.k % s.k == ky && r % s.k == kx
  {
    IxBound(ch, s.c, s.k, ky);
    IxBound(Ix(ch, s.k, ky), s.c * s.k, s.k, kx);
    IxDiv(Ix(ch, s.k, ky), s.k, kx);
    IxDiv(ch, s.k, ky);
  }

  method FillColOffsets(s: Shape, oh: nat, ow: nat, colsPad: nat) returns (colY: seq<int>, colX: seq<int>)
    ensures ColsCorrect(s, oh, ow, colY, colX, Larger(oh * ow, colsPad))
  {
    colY, colX := [], [];
    for oy := 0 to oh
      invariant ColsCorrect(s, oh, ow, colY, colX, Ix(oy, ow, 0))
    {
      for ox := 0 to ow
        invariant ColsCorrect(s, oh, ow, colY, colX, Ix(oy, ow, ox))
      {
        NextColOffsets(s, oh, ow, colY, colX, oy, ox);
        colY := colY + [(oy * s.stride) * s.Wp()];
        colX := colX + [ox * s.stride];
      }
      assert Ix(oy, ow, ow) == Ix(oy + 1, ow, 0);
    }
    assert Ix(oh, ow, 0) == oh * ow;
    while |colY| < colsPad
      invariant oh * ow <= |colY| <= Larger(oh * ow, colsPad) && ColsCorrect(s, oh, ow, colY, colX, |colY|)
    {
      colY, colX := colY + [I32_MAX], colX + [I32_MAX];
    }
  }

  lemma NextColOffsets(s: Shape, oh: nat, ow: nat, colY: seq<int>, colX: seq<int>, oy: nat, ox: nat)
    requires oy < oh && ox < ow && ColsCorrect(s, oh, ow, colY, colX, Ix(oy, ow, ox))
    ensures ColsCorrect(s, oh, ow, colY + [(oy * s.stride) * s.Wp()], colX + [ox * s.stride], Ix(oy, ow, ox + 1))
  {
    IxBound(oy, oh, ow, ox);
    IxDiv(oy, ow, ox);
    assert ColOffsets(s, oh, ow, |colY|) == ((oy * s.stride) * s.Wp(), ox * s.stride);
    assert Ix(oy, ow, ox + 1) == |colY| + 1;
  }

  method FillOffsets(s: Shape, oh: nat, ow: nat, rowsPad: nat, colsPad: nat) returns (f: Offsets)
    ensures Correct(s, oh, ow, rowsPad, colsPad, f)
    ensures forall r :: s.Depth() <= r < |f.rowC| ==> f.rowC[r] == f.rowY[r] == f.rowX[r] == 0x7FFF_FFFF
    ensures forall q :: oh * ow <= q < |f.colY| ==> f.colY[q] == f.colX[q] == 0x7FFF_FFFF
  {
    var rowC, rowY, rowX := FillRowOffsets(s, rowsPad);
    var colY, colX := FillColOffsets(s, oh, ow, colsPad);
    f := Offsets(rowC, rowY, rowX, colY, colX);
    Sentinels(s, oh, ow, rowsPad, colsPad, f);
  }

  lemma Sentinels(s: Shape, oh: nat, ow: nat, rowsPad: nat, colsPad: nat, f: Offsets)
    requires Correct(s, oh, ow, rowsPad, colsPad, f)
    ensures forall r :: s.Depth() <= r < |f.rowC| ==> f.rowC[r] == f.rowY[r] == f.rowX[r] == 0x7FFF_FFFF
    ensures forall q :: oh * ow <= q < |f.colY| ==> f.colY[q] == f.colX[q] == 0x7FFF_FFFF
  {
    forall r: nat | s.Depth() <= r < |f.rowC| ensures f.rowC[r] == f.rowY[r] == f.rowX[r] == 0x7FFF_FFFF {
      assert (f.rowC[r], f.rowY[r], f.rowX[r]) == RowOffsets(s, r);
    }
    forall q: nat | oh * ow <= q < |f.colY| ensures f.colY[q] == f.colX[q] == 0x7FFF_FFFF {
      assert (f.colY[q], f.colX[q]) == ColOffsets(s, oh, ow, q);
    }
  }

  // ----- reading through the offsets

  function Offset(f: Offsets, r: nat, q: nat): int
    requires r < |f.rowC| && r < |f.rowY| && r < |f.rowX| && q < |f.colY| && q < |f.colX|
  {
    f.rowC[r] + (f.rowY[r] + f.colY[q]) + (f.rowX[r] + f.colX[q])
  }

  lemma StepFits(pos: nat, size: nat, k: nat, stride: nat, tap: nat)
    requires stride > 0 && k <= size && pos <= (size - k) / stride && tap < k
    ensures pos * stride + tap < size
  {
    var q := (size - k) / stride;
    assert pos * stride <= q * stride <= size - k;
  }

  lemma RowPlusColumn(y: nat, ky: nat, hp: nat, wp: nat)
    requires y + ky < hp
    ensures ky * wp + y * wp == (y + ky) * wp <= (hp - 1) * wp
  {
  }

  /** A kernel tap and an output position. */
  datatype Spot = Spot(ch: nat, ky: nat, kx: nat, oy: nat, ox: nat) {
    predicate In(s: Shape, oh: nat, ow: nat) {
      ch < s.c && ky < s.k && kx < s.k && oy < oh && ox < ow
    }

    function Tap(s: Shape): nat {
      Ix(Ix(ch, s.k, ky), s.k, kx)
    }

    function Position(ow: nat): nat {
      Ix(oy, ow, ox)
    }

    /** Where in the padded image the tap looks. */
    function Y(s: Shape): nat {
      oy * s.stride + ky
    }

    function X(s: Shape): nat {
      ox * s.stride + kx
    }
  }

  /** The offset tables of a layer, padded to whole blocks. */
  ghost predicate Tables(s: Shape, oh: nat, ow: nat, rowsPad: nat, colsPad: nat, f: Offsets) {
    s.Valid() && oh == s.Oh() && ow == s.Ow() && Correct(s, oh, ow, rowsPad, colsPad, f)
  }

  lemma SpotOffsets(s: Shape, oh: nat, ow: nat, rowsPad: nat, colsPad: nat, f: Offsets, t: Spot)
    requires Tables(s, oh, ow, rowsPad, colsPad, f) && t.In(s, oh, ow)
    ensures var r, q := t.Tap(s), t.Position(ow);
      && r < s.Depth() && r < |f.rowC| && r < |f.rowY| && r < |f.rowX| && q < oh * ow && q < |f.colY| && q < |f.colX|
      && f.rowC[r] == t.ch * (s.Hp() * s.Wp()) && f.rowY[r] == t.ky * s.Wp() && f.rowX[r] == t.kx
      && f.colY[q] == (t.oy * s.stride) * s.Wp() && f.colX[q] == t.ox * s.stride
  {
    TapIndex(s, t.ch, t.ky, t.kx);
    IxBound(t.oy, oh, ow, t.ox);
    IxDiv(t.oy, ow, t.ox);
    assert (f.rowC[t.Tap(s)], f.rowY[t.Tap(s)], f.rowX[t.Tap(s)]) == RowOffsets(s, t.Tap(s));
    assert (f.colY[t.Position(ow)], f.colX[t.Position(ow)]) == ColOffsets(s, oh, ow, t.Position(ow));
  }

  lemma SpotFits(s: Shape, oh: nat, ow: nat, t: Spot)
    requires s.Valid() && oh == s.Oh() && ow == s.Ow() && t.In(s, oh, ow)
    ensures t.Y(s) < s.Hp() && t.X(s) < s.Wp()
  {
    StepFits(t.oy, s.Hp(), s.k, s.stride, t.ky);
    StepFits(t.ox, s.Wp(), s.k, s.stride, t.kx);
  }

  /** Row and column offsets together stay inside the padded image, within the bounds the
      product is told, and lead to the tap's cell. */
  lemma OffsetInside(s: Shape, oh: nat, ow: nat, rowsPad: nat, colsPad: nat, f: Offsets, t: Spot)
    requires Tables(s, oh, ow, rowsPad, colsPad, f) && t.In(s, oh, ow)
    ensures var r, q := t.Tap(s), t.Position(ow);
      && r < |f.rowC| && r < |f.rowY| && r < |f.rowX| && q < |f.colY| && q < |f.colX|
      && 0 <= f.rowY[r] + f.colY[q] <= (s.Hp() - 1) * s.Wp() && 0 <= f.rowX[r] + f.colX[q] <= s.Wp() - 1
      && Offset(f, r, q) == Ix(Ix(t.ch, s.Hp(), t.Y(s)), s.Wp(), t.X(s)) < (s.c * s.Hp()) * s.Wp()
  {
    SpotOffsets(s, oh, ow, rowsPad, colsPad, f, t);
    SpotFits(s, oh, ow, t);
    RowPlusColumn(t.oy * s.stride, t.ky, s.Hp(), s.Wp());
    FlatOffset(t.ch, s.Hp(), t.Y(s), s.Wp(), t.X(s));
    IxBound(t.ch, s.c, s.Hp(), t.Y(s));
    IxBound(Ix(t.ch, s.Hp(), t.Y(s)), s.c * s.Hp(), s.Wp(), t.X(s));
  }

  lemma FlatOffset(ch: nat, hp: nat, y: nat, wp: nat, z: nat)
    ensures Ix(Ix(ch, hp, y), wp, z) == ch * (hp * wp) + y * wp + z
  {
    IxAssoc(ch, hp, y, wp, z);
  }

  /** The virtual matrix holds the input pixel or the zero point. */
  lemma VirtualEntry(s: Shape, oh: nat, ow: nat, rowsPad: nat, colsPad: nat, f: Offsets, src: seq<int>, zp: int,
      padded: seq<int>, t: Spot)
    requires Tables(s, oh, ow, rowsPad, colsPad, f) && t.In(s, oh, ow)
    requires Holds(padded, s.c * s.Hp(), s.Wp(), Padded(s, src, zp))
    ensures var r, q := t.Tap(s), t.Position(ow);
      && r < |f.rowC| && r < |f.rowY| && r < |f.rowX| && q < |f.colY| && q < |f.colX|
      && 0 <= Offset(f, r, q) < |padded|
      && padded[Offset(f, r, q)] == Sample(s, src, zp, t.ch, t.Y(s) - s.pad, t.X(s) - s.pad)
  {
    OffsetInside(s, oh, ow, rowsPad, colsPad, f, t);
    SpotFits(s, oh, ow, t);
    PaddedAt(s, src, zp, t.ch, t.Y(s), t.X(s));
    CellAt(padded, s.c * s.Hp(), s.Wp(), Padded(s, src, zp), Ix(t.ch, s.Hp(), t.Y(s)), t.X(s), s.c, s.Hp(), t.ch,
      t.Y(s));
  }

  lemma CellAt(buf: seq<int>, m: nat, n: nat, v: Cells<int>, row: nat, z: nat, c: nat, hp: nat, ch: nat, y: nat)
    requires Holds(buf, m, n, v) && m == c * hp && row == Ix(ch, hp, y) && ch < c && y < hp && z < n
    ensures Ix(row, n, z) < |buf| && buf[Ix(row, n, z)] == v(row, z)
  {
    IxBound(ch, c, hp, y);
    assert buf[Bounded(row, m, n, z)] == v(row, z);
  }

  // ----- the accumulator is the zero-padded convolution

  function Reals(v: seq<int>, zero: int): (r: seq<real>)
    ensures |r| == |v| && forall i :: 0 <= i < |v| ==> r[i] == (v[i] - zero) as real
  {
    seq(|v|, i requires 0 <= i < |v| => (v[i] - zero) as real)
  }

  /** The layer with the stored weights and no bias. */
  function Weights(s: Shape, oc: nat, qw: seq<int>): Layer {
    Layer(oc, s.c, s.k, s.stride, s.pad, Reals(qw, 0), seq(oc, _ => 0.0))
  }

  /** One image with its zero point taken off. */
  function Centred(s: Shape, src: seq<int>, zp: int): Tensor {
    Tensor(1, s.c, s.h, s.w, Reals(src, zp))
  }

  /** The weights moved to unsigned bytes. */
  method ShiftWeights(qw: seq<int>) returns (wu8: seq<int>)
    requires forall i :: 0 <= i < |qw| ==> -128 <= qw[i] <= 127
    ensures |wu8| == |qw| && forall i :: 0 <= i < |qw| ==> wu8[i] == qw[i] + 128 && 0 <= wu8[i] < 256
  {
    wu8 := [];
    for i := 0 to |qw|
      invariant |wu8| == i && forall j :: 0 <= j < i ==> wu8[j] == qw[j] + 128 && 0 <= wu8[j] < 256
    {
      wu8 := wu8 + [qw[i] + 128];
    }
  }

  ghost predicate Shifted(wu8: seq<int>, qw: seq<int>) {
    |wu8| == |qw| && forall i :: 0 <= i < |qw| ==> wu8[i] == qw[i] + 128
  }

  /** Tap `r`, decoded, at output position (oy, ox). */
  function SpotOf(s: Shape, r: nat, oy: nat, ox: nat): (t: Spot)
    requires s.k > 0
  {
    Spot(r / s.k / s.k, r / s.k % s.k, r % s.k, oy, ox)
  }

  lemma SpotOfTap(s: Shape, oh: nat, ow: nat, r: nat, oy: nat, ox: nat)
    requires s.k > 0 && r < s.Depth() && oy < oh && ox < ow
    ensures SpotOf(s, r, oy, ox).In(s, oh, ow) && SpotOf(s, r, oy, ox).Tap(s) == r
  {
    IxSplit(r, s.c * s.k, s.k);
    IxSplit(r / s.k, s.c, s.k);
  }

  /** One entry of the product, both zero points subtracted. */
  method Entry(s: Shape, oc: nat, oh: nat, ow: nat, rowsPad: nat, colsPad: nat, f: Offsets, src: seq<int>, zp: int,
      padded: seq<int>, qw: seq<int>, wu8: seq<int>, o: nat, oy: nat, ox: nat)
    returns (acc: int)
    requires Tables(s, oh, ow, rowsPad, colsPad, f) && |src| == s.c * (s.h * s.w)
    requires Holds(padded, s.c * s.Hp(), s.Wp(), Padded(s, src, zp))
    requires Shifted(wu8, qw) && |qw| == oc * s.Depth() && o < oc && oy < oh && ox < ow
    ensures acc as real == Direct(Weights(s, oc, qw), Centred(s, src, zp), 0, o, oy, ox)
  {
    ghost var l, x := Weights(s, oc, qw), Centred(s, src, zp);
    acc := 0;
    for r := 0 to s.Depth()
      invariant acc as real == Sum(Taps(l, x, 0, o, oy, ox), r)
    {
      SpotOfTap(s, oh, ow, r, oy, ox);
      VirtualEntry(s, oh, ow, rowsPad, colsPad, f, src, zp, padded, SpotOf(s, r, oy, ox));
      IxBound(o, oc, s.Depth(), r);
      var weight, value := wu8[Ix(o, s.Depth(), r)] - 128, padded[Offset(f, r, Ix(oy, ow, ox))] - zp;
      EntryTerm(s, oc, src, zp, qw, o, oy, ox, r, weight, value);
      acc := acc + weight * value;
    }
    TapsAreDirect(l, x, 0, o, oy, ox);
  }

  lemma EntryTerm(s: Shape, oc: nat, src: seq<int>, zp: int, qw: seq<int>, o: nat, oy: nat, ox: nat, r: nat,
      weight: int, value: int)
    requires s.Valid() && SpotOf(s, r, oy, ox).ch < s.c && |src| == s.c * (s.h * s.w)
    requires Ix(o, s.Depth(), r) < |qw| && weight == qw[Ix(o, s.Depth(), r)]
    requires var t := SpotOf(s, r, oy, ox);
      value == Sample(s, src, zp, t.ch, t.Y(s) - s.pad, t.X(s) - s.pad) - zp
    ensures (weight * value) as real == Taps(Weights(s, oc, qw), Centred(s, src, zp), 0, o, oy, ox)(r)
  {
    var l, x := Weights(s, oc, qw), Centred(s, src, zp);
    CentredTap(s, oc, src, zp, qw, r, oy, ox, value);
    assert l.Depth() == s.Depth() && Get(l.weight, Ix(o, s.Depth(), r)) == weight as real;
    TapIsProduct(l, x, o, oy, ox, r, weight, value);
  }

  lemma CentredTap(s: Shape, oc: nat, src: seq<int>, zp: int, qw: seq<int>, r: nat, oy: nat, ox: nat, value: int)
    requires s.Valid() && SpotOf(s, r, oy, ox).ch < s.c && |src| == s.c * (s.h * s.w)
    requires var t := SpotOf(s, r, oy, ox);
      value == Sample(s, src, zp, t.ch, t.Y(s) - s.pad, t.X(s) - s.pad) - zp
    ensures Tap(Weights(s, oc, qw), Centred(s, src, zp), 0, r, oy, ox) == value as real
  {
    var t := SpotOf(s, r, oy, ox);
    CentredPixel(s, src, zp, t.ch, t.Y(s) - s.pad, t.X(s) - s.pad);
  }

  lemma TapIsProduct(l: Layer, x: Tensor, o: nat, oy: nat, ox: nat, r: nat, weight: int, value: int)
    requires l.k > 0 && Get(l.weight, Ix(o, l.Depth(), r)) == weight as real && Tap(l, x, 0, r, oy, ox) == value as real
    ensures (weight * value) as real == Taps(l, x, 0, o, oy, ox)(r)
  {
    RealProduct(weight, value);
  }

  lemma RealProduct(a: int, b: int)
    ensures (a * b) as real == a as real * b as real
  {
  }

  lemma CentredPixel(s: Shape, src: seq<int>, zp: int, ch: nat, y: int, z: int)
    requires ch < s.c && |src| == s.c * (s.h * s.w)
    ensures Pixel(Centred(s, src, zp), 0, ch, y, z) == (Sample(s, src, zp, ch, y, z) - zp) as real
  {
    if 0 <= y < s.h && 0 <= z < s.w {
      IxBound(y, s.h, s.w, z);
      IxBound(ch, s.c, s.h * s.w, Ix(y, s.w, z));
      assert Ix(0, s.c, ch) == ch;
    }
  }

  // ----- all images

  /** Entry (o, q) of one image's accumulator. */
  ghost predicate Accumulated(s: Shape, oc: nat, spatial: nat, ow: nat, qw: seq<int>, src: seq<int>, zp: int,
      o: nat, q: nat, acc: int)
    requires ow > 0
  {
    acc as real == Direct(Weights(s, oc, qw), Centred(s, src, zp), 0, o, q / ow, q % ow)
  }

  /** Row o of the product. */
  method ProductRow(s: Shape, oc: nat, oh: nat, ow: nat, rowsPad: nat, colsPad: nat, f: Offsets, src: seq<int>,
      zp: int, padded: seq<int>, qw: seq<int>, wu8: seq<int>, o: nat)
    returns (row: seq<int>)
    requires Tables(s, oh, ow, rowsPad, colsPad, f) && |src| == s.c * (s.h * s.w)
    requires Holds(padded, s.c * s.Hp(), s.Wp(), Padded(s, src, zp))
    requires Shifted(wu8, qw) && |qw| == oc * s.Depth() && o < oc
    ensures |row| == oh * ow && forall q :: 0 <= q < |row| ==>
      Accumulated(s, oc, oh * ow, ow, qw, src, zp, o, q, row[q])
  {
    row := [];
    for oy := 0 to oh
      invariant |row| == Ix(oy, ow, 0) && forall q :: 0 <= q < |row| ==>
        Accumulated(s, oc, oh * ow, ow, qw, src, zp, o, q, row[q])
    {
      for ox := 0 to ow
        invariant |row| == Ix(oy, ow, ox) && forall q :: 0 <= q < |row| ==>
          Accumulated(s, oc, oh * ow, ow, qw, src, zp, o, q, row[q])
      {
        var acc := Entry(s, oc, oh, ow, rowsPad, colsPad, f, src, zp, padded, qw, wu8, o, oy, ox);
        IxDiv(oy, ow, ox);
        row := row + [acc];
      }
      assert Ix(oy, ow, ow) == Ix(oy + 1, ow, 0);
    }
    assert Ix(oh, ow, 0) == oh * ow;
  }

  datatype Rescale = Rescale(scales: seq<real>, biases: seq<real>, relu: bool) {
    function Scale(o: nat): real {
      if o < |scales| then scales[o] else 1.0
    }

    function Of(o: nat, v: real): real {
      Act(relu, v * Scale(o) + Get(biases, o))
    }
  }

  /** Row ni*oc + o of the output. */
  function Rescaled(s: Shape, oc: nat, ow: nat, qw: seq<int>, images: seq<seq<int>>, zp: int, d: Rescale): Cells<real> {
    (row: nat, q: nat) =>
      if oc == 0 || ow == 0 || row / oc >= |images| then 0.0
      else d.Of(row % oc, Direct(Weights(s, oc, qw), Centred(s, images[row / oc], zp), 0, row % oc, q / ow, q % ow))
  }

  /** One channel rescaled and rectified. */
  method DequantRow(acc: seq<int>, d: Rescale, o: nat) returns (line: seq<real>)
    ensures |line| == |acc| && forall q :: 0 <= q < |acc| ==> line[q] == d.Of(o, acc[q] as real)
  {
    line := [];
    for hw := 0 to |acc|
      invariant |line| == hw && forall q :: 0 <= q < hw ==> line[q] == d.Of(o, acc[q] as real)
    {
      var v := acc[hw] as real * d.Scale(o) + Get(d.biases, o);
      if d.relu && v < 0.0 { v := 0.0; }
      line := line + [v];
    }
  }

  lemma LineIsRescaled(s: Shape, oc: nat, spatial: nat, ow: nat, qw: seq<int>, images: seq<seq<int>>, zp: int,
      d: Rescale, ni: nat, o: nat, acc: seq<int>, line: seq<real>)
    requires ni < |images| && o < oc && ow > 0 && |acc| == |line| == spatial
    requires forall q :: 0 <= q < spatial ==> Accumulated(s, oc, spatial, ow, qw, images[ni], zp, o, q, acc[q])
    requires forall q :: 0 <= q < spatial ==> line[q] == d.Of(o, acc[q] as real)
    ensures forall q :: 0 <= q < |line| ==> line[q] == Rescaled(s, oc, ow, qw, images, zp, d)(Ix(ni, oc, o), 0 + q)
  {
    IxDiv(ni, oc, o);
  }

  /** One image: pad, multiply through the offsets, rescale. */
  method RunImage(s: Shape, oc: nat, rowsPad: nat, colsPad: nat, f: Offsets, images: seq<seq<int>>, ni: nat,
      zp: int, qw: seq<int>, wu8: seq<int>, d: Rescale, padded: array<int>, y: array<real>, rows: nat, oh: nat,
      ow: nat)
    requires Tables(s, oh, ow, rowsPad, colsPad, f) && Shifted(wu8, qw) && |qw| == oc * s.Depth()
    requires ni < |images| && |images[ni]| == s.c * (s.h * s.w)
    requires padded.Length == (s.c * s.Hp()) * s.Wp() && rows == |images| * oc && y.Length == rows * (oh * ow)
    modifies padded, y
    ensures Overwritten(old(y[..]), y[..], rows, oh * ow, Ix(ni, oc, 0), Ix(ni, oc, oc), 0, oh * ow,
      Rescaled(s, oc, ow, qw, images, zp, d))
  {
    var spatial := oh * ow;
    ghost var v, row := Rescaled(s, oc, ow, qw, images, zp, d), Ix(ni, oc, 0);
    CopyPadded(s, images[ni], zp, padded);
    var image := padded[..];
    NothingOverwritten(y[..], rows, spatial, row, row, 0, spatial, v);
    for o := 0 to oc
      invariant row == Ix(ni, oc, o) && Overwritten(old(y[..]), y[..], rows, spatial, Ix(ni, oc, 0), row, 0, spatial, v)
    {
      var acc := ProductRow(s, oc, oh, ow, rowsPad, colsPad, f, images[ni], zp, image, qw, wu8, o);
      var line := DequantRow(acc, d, o);
      LineIsRescaled(s, oc, spatial, ow, qw, images, zp, d, ni, o, acc, line);
      IxBound(ni, |images|, oc, o);
      NextRow(old(y[..]), y[..], rows, spatial, Ix(ni, oc, 0), row, 0, spatial, line, v);
      CopyInto(y, Ix(Ix(ni, oc, o), spatial, 0), line);
      row := row + 1;
    }
  }

  /** Images already quantised: the output is the direct convolution of the centred images
      by the stored weights, rescaled, whatever the scratch image and the output held. */
  method RunConv(s: Shape, oc: nat, rowsPad: nat, colsPad: nat, images: seq<seq<int>>, zp: int, qw: seq<int>,
      d: Rescale, padded: array<int>, y: array<real>, oh: nat, ow: nat)
    requires s.Valid() && oh == s.Oh() && ow == s.Ow() && |qw| == oc * s.Depth()
    requires forall i :: 0 <= i < |qw| ==> -128 <= qw[i] <= 127
    requires forall ni :: 0 <= ni < |images| ==> |images[ni]| == s.c * (s.h * s.w)
    requires padded.Length == (s.c * s.Hp()) * s.Wp() && y.Length == (|images| * oc) * (oh * ow)
    modifies padded, y
    ensures Holds(y[..], |images| * oc, oh * ow, Rescaled(s, oc, ow, qw, images, zp, d))
  {
    var rows, spatial := |images| * oc, oh * ow;
    var wu8 := ShiftWeights(qw);
    var f := FillOffsets(s, oh, ow, rowsPad, colsPad);
    ghost var v := Rescaled(s, oc, ow, qw, images, zp, d);
    NothingOverwritten(y[..], rows, spatial, 0, 0, 0, spatial, v);
    for ni := 0 to |images|
      invariant Overwritten(old(y[..]), y[..], rows, spatial, 0, Ix(ni, oc, 0), 0, spatial, v)
    {
      ghost var before := y[..];
      RunImage(s, oc, rowsPad, colsPad, f, images, ni, zp, qw, wu8, d, padded, y, rows, oh, ow);
      MoreRows(old(y[..]), before, y[..], rows, spatial, 0, Ix(ni, oc, 0), Ix(ni, oc, oc), 0, spatial, v);
      assert Ix(ni, oc, oc) == Ix(ni + 1, oc, 0);
    }
    assert Ix(|images|, oc, 0) == rows;
    AllOverwritten(old(y[..]), y[..], rows, spatial, v);
  }

  /** What that says of one output value: the convolution times the channel's scale, plus its
      bias, rectified if asked. */
  lemma RescaledAt(s: Shape, oc: nat, qw: seq<int>, images: seq<seq<int>>, zp: int, d: Rescale, y: seq<real>,
      oh: nat, ow: nat, ni: nat, o: nat, oy: nat, ox: nat)
    requires Holds(y, |images| * oc, oh * ow, Rescaled(s, oc, ow, qw, images, zp, d))
    requires ni < |images| && o < oc && oy < oh && ox < ow && o < |d.scales| && o < |d.biases|
    ensures var i := Ix(Ix(ni, oc, o), oh * ow, Ix(oy, ow, ox));
      var v := Direct(Weights(s, oc, qw), Centred(s, images[ni], zp), 0, o, oy, ox) * d.scales[o] + d.biases[o];
      i < |y| && y[i] == if d.relu && v < 0.0 then 0.0 else v
  {
    var row, q := Ix(ni, oc, o), Ix(oy, ow, ox);
    IxBound(ni, |images|, oc, o);
    IxBound(oy, oh, ow, ox);
    RescaledCell(s, oc, ow, qw, images, zp, d, ni, o, oy, ox);
    assert y[Bounded(row, |images| * oc, oh * ow, q)] == Rescaled(s, oc, ow, qw, images, zp, d)(row, q);
  }

  lemma RescaledCell(s: Shape, oc: nat, ow: nat, qw: seq<int>, images: seq<seq<int>>, zp: int, d: Rescale,
      ni: nat, o: nat, oy: nat, ox: nat)
    requires ni < |images| && o < oc && ox < ow && o < |d.scales| && o < |d.biases|
    ensures var v := Direct(Weights(s, oc, qw), Centred(s, images[ni], zp), 0, o, oy, ox) * d.scales[o] + d.biases[o];
      Rescaled(s, oc, ow, qw, images, zp, d)(Ix(ni, oc, o), Ix(oy, ow, ox)) == if d.relu && v < 0.0 then 0.0 else v
  {
    IxDiv(ni, oc, o);
    IxDiv(oy, ow, ox);
    var acc := Direct(Weights(s, oc, qw), Centred(s, images[ni], zp), 0, o, oy, ox);
    ScaledByChannel(d, o, acc);
    CellOf(s, oc, ow, qw, images, zp, d, Ix(ni, oc, o), Ix(oy, ow, ox), ni, o, oy, ox, acc);
  }

  lemma CellOf(s: Shape, oc: nat, ow: nat, qw: seq<int>, images: seq<seq<int>>, zp: int, d: Rescale, row: nat, q: nat,
      ni: nat, o: nat, oy: nat, ox: nat, acc: real)
    requires ni < |images| && oc > 0 && ow > 0 && row / oc == ni && row % oc == o && q / ow == oy && q % ow == ox
    requires acc == Direct(Weights(s, oc, qw), Centred(s, images[ni], zp), 0, o, oy, ox)
    ensures Rescaled(s, oc, ow, qw, images, zp, d)(row, q) == d.Of(o, acc)
  {
  }

  lemma ScaledByChannel(d: Rescale, o: nat, acc: real)
    requires o < |d.scales| && o < |d.biases|
    ensures var v := acc * d.scales[o] + d.biases[o]; d.Of(o, acc) == if d.relu && v < 0.0 then 0.0 else v
  {
  }

  /** The output has a position for exactly the windows that fit the padded image. */
  lemma PositionsCount(s: Shape, i: nat)
    requires s.Valid()
    ensures i < s.Oh() <==> i * s.stride + s.k <= s.h + 2 * s.pad
    ensures i < s.Ow() <==> i * s.stride + s.k <= s.w + 2 * s.pad
  {
    WindowCount(s.h + 2 * s.pad, s.k, s.stride, i);
    WindowCount(s.w + 2 * s.pad, s.k, s.stride, i);
  }
}

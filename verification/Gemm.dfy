/** The portable matrix products C = A B + bias, one bias per row, and C += A B, with an
    8 by 8 and a 4 by 8 register tile and row-by-row tails. Buffers are row-major. */
module Gemm {
  import opened Flat

  function Get(s: seq<real>, x: nat): real {
    if x < |s| then s[x] else 0.0
  }

  /** The products that make up entry (i, j) of A B. */
  function Term(a: seq<real>, b: seq<real>, n: nat, k: nat, i: nat, j: nat): nat -> real {
    (p: nat) => Get(a, Ix(i, k, p)) * Get(b, Ix(p, n, j))
  }

  function RowBias(a: seq<real>, b: seq<real>, bias: seq<real>, n: nat, k: nat): Cells<real> {
    (i: nat, j: nat) => Get(bias, i) + Sum(Term(a, b, n, k, i, j), k)
  }

  function Plus(a: seq<real>, b: seq<real>, c: seq<real>, n: nat, k: nat): Cells<real> {
    (i: nat, j: nat) => Get(c, Ix(i, n, j)) + Sum(Term(a, b, n, k, i, j), k)
  }

  /** Where an entry starts: from its row's bias, or from what C holds. */
  datatype Mode = Bias(bias: seq<real>) | Add

  function Start(mode: Mode, first: seq<real>, n: nat): Cells<real> {
    (i: nat, j: nat) => if mode.Bias? then Get(mode.bias, i) else Get(first, Ix(i, n, j))
  }

  /** Entry (i, j) after the first `p` products. */
  function Partial(a: seq<real>, b: seq<real>, start: Cells<real>, n: nat, k: nat, i: nat, j: nat, p: nat): real {
    start(i, j) + Sum(Term(a, b, n, k, i, j), p)
  }

  function Product(a: seq<real>, b: seq<real>, start: Cells<real>, n: nat, k: nat): Cells<real> {
    (i: nat, j: nat) => Partial(a, b, start, n, k, i, j, k)
  }

  ghost predicate Shapes(a: seq<real>, b: seq<real>, mode: Mode, c: array<real>, m: nat, n: nat, k: nat) {
    |a| == m * k && |b| == k * n && (mode.Bias? ==> |mode.bias| == m) && c.Length == m * n
  }

  // ----- one row at a time

  function RowPart(a: seq<real>, b: seq<real>, start: Cells<real>, n: nat, k: nat, i: nat, n0: nat, len: nat,
      p: nat): (r: seq<real>)
    ensures |r| == len && forall t :: 0 <= t < len ==> r[t] == Partial(a, b, start, n, k, i, n0 + t, p)
  {
    seq(len, t requires 0 <= t < len => Partial(a, b, start, n, k, i, n0 + t, p))
  }

  lemma RowPartIsProduct(a: seq<real>, b: seq<real>, start: Cells<real>, n: nat, k: nat, i: nat, n0: nat,
      row: seq<real>)
    requires row == RowPart(a, b, start, n, k, i, n0, |row|, k)
    ensures forall t :: 0 <= t < |row| ==> row[t] == Product(a, b, start, n, k)(i, n0 + t)
  {
  }

  /** y += alpha x on the part of `c` that starts at `at`. */
  method Saxpy(alpha: real, x: seq<real>, c: array<real>, at: nat)
    requires at + |x| <= c.Length
    modifies c
    ensures forall y :: 0 <= y < c.Length ==> c[y] == old(c[y]) + if at <= y < at + |x| then alpha * x[y - at] else 0.0
  {
    for t := 0 to |x|
      invariant forall y :: 0 <= y < c.Length ==>
        c[y] == old(c[y]) + if at <= y < at + t then alpha * x[y - at] else 0.0
    {
      c[at + t] := c[at + t] + alpha * x[t];
    }
  }

  ghost predicate Added(x: seq<real>, y: seq<real>, alpha: real, row: seq<real>) {
    |x| == |y| == |row| && forall t :: 0 <= t < |row| ==> y[t] == x[t] + alpha * row[t]
  }

  lemma AddedOnce(x: seq<real>, y: seq<real>, z: seq<real>, alpha: real, row: seq<real>)
    requires Added(x, y, alpha, row) && Added(x, z, alpha, row)
    ensures y == z
  {
  }

  /** One more product for part of a row. */
  lemma NextProduct(a: seq<real>, b: seq<real>, start: Cells<real>, m: nat, n: nat, k: nat, i: nat, n0: nat,
      len: nat, p: nat)
    requires |a| == m * k && |b| == k * n && i < m && n0 + len <= n && p < k
    ensures Ix(i, k, p) < |a| && Ix(p, n, n0) + len <= |b|
    ensures Added(RowPart(a, b, start, n, k, i, n0, len, p), RowPart(a, b, start, n, k, i, n0, len, p + 1),
      a[Ix(i, k, p)], b[Ix(p, n, n0)..Ix(p, n, n0) + len])
  {
    IxBound(i, m, k, p);
    SegmentFits(k, n, p, n0, len);
    var brow := b[Ix(p, n, n0)..Ix(p, n, n0) + len];
    forall t | 0 <= t < len ensures Get(b, Ix(p, n, n0 + t)) == brow[t] {
      assert Ix(p, n, n0 + t) == Ix(p, n, n0) + t;
    }
    PartsAdded(a, b, start, n, k, i, n0, len, p, a[Ix(i, k, p)], brow);
  }

  lemma PartsAdded(a: seq<real>, b: seq<real>, start: Cells<real>, n: nat, k: nat, i: nat, n0: nat, len: nat, p: nat,
                   av: real, brow: seq<real>)
    requires Get(a, Ix(i, k, p)) == av && |brow| == len
    requires forall t :: 0 <= t < len ==> Get(b, Ix(p, n, n0 + t)) == brow[t]
    ensures Added(RowPart(a, b, start, n, k, i, n0, len, p), RowPart(a, b, start, n, k, i, n0, len, p + 1), av, brow)
  {
    forall t | 0 <= t < len
      ensures Partial(a, b, start, n, k, i, n0 + t, p + 1) == Partial(a, b, start, n, k, i, n0 + t, p) + av * brow[t]
    {
      NextTerm(a, b, start, n, k, i, n0 + t, p, av, brow[t]);
    }
  }

  lemma NextTerm(a: seq<real>, b: seq<real>, start: Cells<real>, n: nat, k: nat, i: nat, j: nat, p: nat,
                 av: real, bv: real)
    requires Get(a, Ix(i, k, p)) == av && Get(b, Ix(p, n, j)) == bv
    ensures Partial(a, b, start, n, k, i, j, p + 1) == Partial(a, b, start, n, k, i, j, p) + av * bv
  {
    assert Term(a, b, n, k, i, j)(p) == av * bv;
  }

  lemma NextPart(first: seq<real>, at: nat, s: seq<real>, t: seq<real>, x: seq<real>, y: seq<real>, alpha: real,
      row: seq<real>)
    requires Added(x, y, alpha, row) && at + |row| <= |first| && |s| == |t| && s == Patch(first, at, x)
    requires forall z :: 0 <= z < |s| ==> t[z] == s[z] + if at <= z < at + |row| then alpha * row[z - at] else 0.0
    ensures t == Patch(first, at, y)
  {
  }

  /** The starting values of part of a row. */
  function StartRow(start: Cells<real>, i: nat, n0: nat, len: nat): (r: seq<real>)
    ensures |r| == len && forall t :: 0 <= t < len ==> r[t] == start(i, n0 + t)
  {
    seq(len, t requires 0 <= t < len => start(i, n0 + t))
  }

  function Repeat(x: real, len: nat): (r: seq<real>)
    ensures |r| == len && forall t :: 0 <= t < len ==> r[t] == x
  {
    seq(len, _ => x)
  }

  /** Cells from `at` on hold the starting values, where those are C's own. */
  ghost predicate Ready(mode: Mode, start: Cells<real>, s: seq<real>, i: nat, n0: nat, at: nat, len: nat) {
    at + len <= |s| &&
      StartRow(start, i, n0, len) == if mode.Bias? then Repeat(Get(mode.bias, i), len) else s[at..at + len]
  }

  ghost predicate AllReady(mode: Mode, start: Cells<real>, s: seq<real>, n: nat, i0: nat, i1: nat, n0: nat, len: nat) {
    forall i: nat :: i0 <= i < i1 ==> Ready(mode, start, s, i, n0, Ix(i, n, n0), len)
  }

  /** What a block has not reached is ready. */
  lemma StillReady(mode: Mode, first: seq<real>, s: seq<real>, m: nat, n: nat, i0: nat, i1: nat, j0: nat, j1: nat,
      v: Cells<real>, i: nat, n0: nat, len: nat)
    requires Overwritten(first, s, m, n, i0, i1, j0, j1, v) && i < m && n0 + len <= n && (i >= i1 || n0 >= j1)
    ensures Ready(mode, Start(mode, first, n), s, i, n0, Ix(i, n, n0), len)
  {
    SegmentFits(m, n, i, n0, len);
    var row, part := StartRow(Start(mode, first, n), i, n0, len), s[Ix(i, n, n0)..Ix(i, n, n0) + len];
    if mode.Add? {
      forall t | 0 <= t < len ensures row[t] == part[t] {
        assert Bounded(i, m, n, n0 + t) == Ix(i, n, n0) + t;
      }
    }
  }

  /** Row `i` from column `n0` on: fill with the bias if there is one, then one saxpy per
      row of B. */
  method RowOnce(a: seq<real>, b: seq<real>, mode: Mode, ghost start: Cells<real>, c: array<real>, m: nat, i: nat,
      n0: nat, len: nat, n: nat, k: nat)
    requires |a| == m * k && |b| == k * n && i < m && n0 + len <= n && (mode.Bias? ==> |mode.bias| == m)
    requires Ready(mode, start, c[..], i, n0, Ix(i, n, n0), len)
    modifies c
    ensures c[..] == Patch(old(c[..]), Ix(i, n, n0), RowPart(a, b, start, n, k, i, n0, len, k))
  {
    var at := Ix(i, n, n0);
    if mode.Bias? {
      CopyInto(c, at, Repeat(mode.bias[i], len));
    }
    assert StartRow(start, i, n0, len) == RowPart(a, b, start, n, k, i, n0, len, 0);
    assert c[..] == Patch(old(c[..]), at, StartRow(start, i, n0, len));
    for p := 0 to k
      invariant c[..] == Patch(old(c[..]), at, RowPart(a, b, start, n, k, i, n0, len, p))
    {
      NextProduct(a, b, start, m, n, k, i, n0, len, p);
      ghost var before := c[..];
      var av, brow := a[Ix(i, k, p)], b[Ix(p, n, n0)..Ix(p, n, n0) + len];
      Saxpy(av, brow, c, at);
      NextPart(old(c[..]), at, before, c[..], RowPart(a, b, start, n, k, i, n0, len, p),
        RowPart(a, b, start, n, k, i, n0, len, p + 1), av, brow);
    }
  }

  /** Rows m0.. of columns n0..n1, row by row. */
  method Tail(a: seq<real>, b: seq<real>, mode: Mode, c: array<real>, m: nat, m0: nat, mr: nat, n0: nat, n1: nat,
      n: nat, k: nat, ghost start: Cells<real>)
    requires Shapes(a, b, mode, c, m, n, k) && m0 + mr <= m && n0 <= n1 <= n
    requires AllReady(mode, start, c[..], n, m0, m0 + mr, n0, n1 - n0)
    modifies c
    ensures Overwritten(old(c[..]), c[..], m, n, m0, m0 + mr, n0, n1, Product(a, b, start, n, k))
  {
    ghost var v, first := Product(a, b, start, n, k), c[..];
    var len := n1 - n0;
    NothingOverwritten(first, m, n, m0, m0, n0, n1, v);
    for i := m0 to m0 + mr
      invariant Overwritten(first, c[..], m, n, m0, i, n0, n1, v)
    {
      ghost var row := RowPart(a, b, start, n, k, i, n0, len, k);
      RowPartIsProduct(a, b, start, n, k, i, n0, row);
      NextRow(first, c[..], m, n, m0, i, n0, n1, row, v);
      assert Ready(mode, start, first, i, n0, Ix(i, n, n0), len);
      ReadyLater(mode, start, first, c[..], m, n, m0, i, n0, n1, v, i, len);
      RowOnce(a, b, mode, start, c, m, i, n0, len, n, k);
    }
  }

  /** Rows that were ready stay so while others are written. */
  lemma ReadyLater(mode: Mode, start: Cells<real>, s: seq<real>, t: seq<real>, m: nat, n: nat, i0: nat, i1: nat,
      n0: nat, n1: nat, v: Cells<real>, i: nat, len: nat)
    requires Overwritten(s, t, m, n, i0, i1, n0, n1, v) && i1 <= i < m && n0 + len <= n
    requires Ready(mode, start, s, i, n0, Ix(i, n, n0), len)
    ensures Ready(mode, start, t, i, n0, Ix(i, n, n0), len)
  {
    var before, after := s[Ix(i, n, n0)..Ix(i, n, n0) + len], t[Ix(i, n, n0)..Ix(i, n, n0) + len];
    forall x | 0 <= x < len ensures after[x] == before[x] {
      assert Bounded(i, m, n, n0 + x) == Ix(i, n, n0) + x;
    }
  }

  // ----- a register tile

  function TileRow(acc: array2<real>, r: nat): (row: seq<real>)
    requires r < acc.Length0
    reads acc
    ensures |row| == acc.Length1 && forall s :: 0 <= s < acc.Length1 ==> row[s] == acc[r, s]
  {
    seq(acc.Length1, s requires 0 <= s < acc.Length1 reads acc => acc[r, s])
  }

  /** The tile holds the entries from (m0, n0) after `p` products; its first `i` rows
      already after one more. */
  ghost predicate TileAt(acc: array2<real>, a: seq<real>, b: seq<real>, start: Cells<real>, m0: nat, n0: nat,
      n: nat, k: nat, p: nat, i: nat)
    reads acc
  {
    forall r: nat :: r < acc.Length0 ==>
      TileRow(acc, r) == RowPart(a, b, start, n, k, m0 + r, n0, acc.Length1, if r < i then p + 1 else p)
  }

  method AddToRow(acc: array2<real>, i: nat, alpha: real, row: seq<real>)
    requires i < acc.Length0 && |row| == acc.Length1
    modifies acc
    ensures Added(old(TileRow(acc, i)), TileRow(acc, i), alpha, row)
    ensures forall r: nat :: r < acc.Length0 && r != i ==> TileRow(acc, r) == old(TileRow(acc, r))
  {
    for j := 0 to acc.Length1
      invariant forall r, s :: 0 <= r < acc.Length0 && 0 <= s < acc.Length1 ==>
        acc[r, s] == if r == i && s < j then old(acc[r, s]) + alpha * row[s] else old(acc[r, s])
    {
      acc[i, j] := acc[i, j] + alpha * row[j];
    }
  }

  /** Add the products of one row of B to the whole tile. */
  method Accumulate(acc: array2<real>, a: seq<real>, b: seq<real>, ghost start: Cells<real>, m: nat, m0: nat,
      n0: nat, n: nat, k: nat, p: nat)
    requires |a| == m * k && |b| == k * n && m0 + acc.Length0 <= m && n0 + acc.Length1 <= n && p < k
    requires TileAt(acc, a, b, start, m0, n0, n, k, p, 0)
    modifies acc
    ensures TileAt(acc, a, b, start, m0, n0, n, k, p + 1, 0)
  {
    for i := 0 to acc.Length0
      invariant TileAt(acc, a, b, start, m0, n0, n, k, p, i)
    {
      AccumulateRow(acc, a, b, start, m, m0, n0, n, k, p, i);
    }
  }

  method AccumulateRow(acc: array2<real>, a: seq<real>, b: seq<real>, ghost start: Cells<real>, m: nat, m0: nat,
      n0: nat, n: nat, k: nat, p: nat, i: nat)
    requires |a| == m * k && |b| == k * n && m0 + acc.Length0 <= m && n0 + acc.Length1 <= n && p < k
    requires i < acc.Length0 && TileAt(acc, a, b, start, m0, n0, n, k, p, i)
    modifies acc
    ensures TileAt(acc, a, b, start, m0, n0, n, k, p, i + 1)
  {
    NextProduct(a, b, start, m, n, k, m0 + i, n0, acc.Length1, p);
    var av, brow := a[Ix(m0 + i, k, p)], b[Ix(p, n, n0)..Ix(p, n, n0) + acc.Length1];
    ghost var x := TileRow(acc, i);
    AddToRow(acc, i, av, brow);
    AddedOnce(x, TileRow(acc, i), RowPart(a, b, start, n, k, m0 + i, n0, acc.Length1, p + 1), av, brow);
  }

  /** The tile before any product: the biases, or a copy of C. */
  method LoadTile(mode: Mode, c: array<real>, mr: nat, nr: nat, m0: nat, n0: nat, n: nat,
      ghost start: Cells<real>) returns (acc: array2<real>)
    requires AllReady(mode, start, c[..], n, m0, m0 + mr, n0, nr)
    requires mode.Bias? ==> m0 + mr <= |mode.bias|
    ensures fresh(acc) && acc.Length0 == mr && acc.Length1 == nr
    ensures forall r, s :: 0 <= r < mr && 0 <= s < nr ==> acc[r, s] == start(m0 + r, n0 + s)
  {
    acc := new real[mr, nr];
    for i := 0 to mr
      invariant forall r, s :: 0 <= r < i && 0 <= s < nr ==> acc[r, s] == start(m0 + r, n0 + s)
    {
      assert Ready(mode, start, c[..], m0 + i, n0, Ix(m0 + i, n, n0), nr);
      for j := 0 to nr
        invariant forall r, s :: 0 <= r < i && 0 <= s < nr ==> acc[r, s] == start(m0 + r, n0 + s)
        invariant forall s :: 0 <= s < j ==> acc[i, s] == start(m0 + i, n0 + s)
      {
        assert StartRow(start, m0 + i, n0, nr)[j] == start(m0 + i, n0 + j);
        acc[i, j] := if mode.Bias? then mode.bias[m0 + i] else c[Ix(m0 + i, n, n0) + j];
      }
    }
  }

  method Kernel(mr: nat, nr: nat, a: seq<real>, b: seq<real>, mode: Mode, c: array<real>, m: nat, m0: nat, n0: nat,
      n: nat, k: nat, ghost start: Cells<real>)
    requires Shapes(a, b, mode, c, m, n, k) && m0 + mr <= m && n0 + nr <= n
    requires AllReady(mode, start, c[..], n, m0, m0 + mr, n0, nr)
    modifies c
    ensures Overwritten(old(c[..]), c[..], m, n, m0, m0 + mr, n0, n0 + nr, Product(a, b, start, n, k))
  {
    var acc := LoadTile(mode, c, mr, nr, m0, n0, n, start);
    for p := 0 to k
      invariant TileAt(acc, a, b, start, m0, n0, n, k, p, 0) && c[..] == old(c[..])
    {
      Accumulate(acc, a, b, start, m, m0, n0, n, k, p);
    }
    StoreTile(acc, a, b, start, c, m, m0, n0, n, k);
  }

  method StoreTile(acc: array2<real>, a: seq<real>, b: seq<real>, ghost start: Cells<real>, c: array<real>, m: nat,
      m0: nat, n0: nat, n: nat, k: nat)
    requires TileAt(acc, a, b, start, m0, n0, n, k, k, 0)
    requires c.Length == m * n && m0 + acc.Length0 <= m && n0 + acc.Length1 <= n
    modifies c
    ensures Overwritten(old(c[..]), c[..], m, n, m0, m0 + acc.Length0, n0, n0 + acc.Length1, Product(a, b, start, n, k))
  {
    ghost var v := Product(a, b, start, n, k);
    var nr := acc.Length1;
    NothingOverwritten(c[..], m, n, m0, m0, n0, n0 + nr, v);
    for i := 0 to acc.Length0
      invariant TileAt(acc, a, b, start, m0, n0, n, k, k, 0)
      invariant Overwritten(old(c[..]), c[..], m, n, m0, m0 + i, n0, n0 + nr, v)
    {
      var row := TileRow(acc, i);
      RowPartIsProduct(a, b, start, n, k, m0 + i, n0, row);
      NextRow(old(c[..]), c[..], m, n, m0, m0 + i, n0, n0 + nr, row, v);
      CopyInto(c, Ix(m0 + i, n, n0), row);
    }
  }

  // ----- the whole product

  /** `mr` rows from `m0` on, eight columns at a time, then the columns left over. */
  method Strip(mr: nat, a: seq<real>, b: seq<real>, mode: Mode, c: array<real>, m: nat, m0: nat, n: nat, k: nat,
      ghost start: Cells<real>)
    requires Shapes(a, b, mode, c, m, n, k) && m0 + mr <= m && start == Start(mode, c[..], n)
    modifies c
    ensures Overwritten(old(c[..]), c[..], m, n, m0, m0 + mr, 0, n, Product(a, b, start, n, k))
  {
    ghost var v, first := Product(a, b, start, n, k), c[..];
    var n0 := 0;
    NothingOverwritten(first, m, n, m0, m0 + mr, 0, 0, v);
    while n0 + 8 <= n
      invariant n0 <= n && Overwritten(first, c[..], m, n, m0, m0 + mr, 0, n0, v)
    {
      ghost var before := c[..];
      RowsReady(mode, first, before, m, n, m0, m0 + mr, 0, n0, v, n0, 8);
      Kernel(mr, 8, a, b, mode, c, m, m0, n0, n, k, start);
      MoreColumns(first, before, c[..], m, n, m0, m0 + mr, 0, n0, n0 + 8, v);
      n0 := n0 + 8;
    }
    if n0 < n {
      ghost var before := c[..];
      RowsReady(mode, first, before, m, n, m0, m0 + mr, 0, n0, v, n0, n - n0);
      Tail(a, b, mode, c, m, m0, mr, n0, n, n, k, start);
      MoreColumns(first, before, c[..], m, n, m0, m0 + mr, 0, n0, n, v);
    }
  }

  lemma RowsReady(mode: Mode, first: seq<real>, s: seq<real>, m: nat, n: nat, i0: nat, i1: nat, j0: nat, j1: nat,
      v: Cells<real>, n0: nat, len: nat)
    requires Overwritten(first, s, m, n, i0, i1, j0, j1, v) && i1 <= m && n0 >= j1 && n0 + len <= n
    ensures AllReady(mode, Start(mode, first, n), s, n, i0, i1, n0, len)
  {
    forall i: nat | i0 <= i < i1 ensures Ready(mode, Start(mode, first, n), s, i, n0, Ix(i, n, n0), len) {
      StillReady(mode, first, s, m, n, i0, i1, j0, j1, v, i, n0, len);
    }
  }

  /** Rows of C not yet written start as they did. */
  lemma SameStart(mode: Mode, first: seq<real>, s: seq<real>, t: seq<real>, a: seq<real>, b: seq<real>, m: nat,
      n: nat, k: nat, i0: nat, i1: nat, v: Cells<real>)
    requires Overwritten(first, s, m, n, 0, i0, 0, n, v) && i0 <= i1 && v == Product(a, b, Start(mode, first, n), n, k)
    requires Overwritten(s, t, m, n, i0, i1, 0, n, Product(a, b, Start(mode, s, n), n, k))
    ensures Overwritten(first, t, m, n, 0, i1, 0, n, v)
  {
    var w := Product(a, b, Start(mode, s, n), n, k);
    forall i: nat, j: nat | i0 <= i < m && j < n ensures w(i, j) == v(i, j) {
      assert s[Bounded(i, m, n, j)] == first[Bounded(i, m, n, j)];
    }
    assert Overwritten(s, t, m, n, i0, i1, 0, n, v);
    MoreRows(first, s, t, m, n, 0, i0, i1, 0, n, v);
  }

  method Blocked(a: seq<real>, b: seq<real>, mode: Mode, c: array<real>, m: nat, n: nat, k: nat)
    requires Shapes(a, b, mode, c, m, n, k)
    modifies c
    ensures Holds(c[..], m, n, Product(a, b, Start(mode, old(c[..]), n), n, k))
  {
    ghost var first := c[..];
    ghost var v := Product(a, b, Start(mode, first, n), n, k);
    var m0 := 0;
    NothingOverwritten(first, m, n, 0, 0, 0, n, v);
    while m0 + 8 <= m
      invariant m0 <= m && Overwritten(first, c[..], m, n, 0, m0, 0, n, v)
    {
      ghost var before := c[..];
      Strip(8, a, b, mode, c, m, m0, n, k, Start(mode, before, n));
      SameStart(mode, first, before, c[..], a, b, m, n, k, m0, m0 + 8, v);
      m0 := m0 + 8;
    }
    while m0 + 4 <= m
      invariant m0 <= m && Overwritten(first, c[..], m, n, 0, m0, 0, n, v)
    {
      ghost var before := c[..];
      Strip(4, a, b, mode, c, m, m0, n, k, Start(mode, before, n));
      SameStart(mode, first, before, c[..], a, b, m, n, k, m0, m0 + 4, v);
      m0 := m0 + 4;
    }
    if m0 < m {
      ghost var before := c[..];
      AllRows(a, b, mode, c, m, m0, n, k);
      SameStart(mode, first, before, c[..], a, b, m, n, k, m0, m, v);
    }
    AllOverwritten(first, c[..], m, n, v);
  }

  /** Every row from `m0` on, whole rows at a time. */
  method AllRows(a: seq<real>, b: seq<real>, mode: Mode, c: array<real>, m: nat, m0: nat, n: nat, k: nat)
    requires Shapes(a, b, mode, c, m, n, k) && m0 <= m
    modifies c
    ensures Overwritten(old(c[..]), c[..], m, n, m0, m, 0, n, Product(a, b, Start(mode, old(c[..]), n), n, k))
  {
    ghost var first := c[..];
    ghost var v := Product(a, b, Start(mode, first, n), n, k);
    NothingOverwritten(first, m, n, m0, m, 0, 0, v);
    RowsReady(mode, first, first, m, n, m0, m, 0, 0, v, 0, n);
    Tail(a, b, mode, c, m, m0, m - m0, 0, n, n, k, Start(mode, first, n));
  }

  method Multiply(a: seq<real>, b: seq<real>, mode: Mode, c: array<real>, m: nat, n: nat, k: nat)
    requires Shapes(a, b, mode, c, m, n, k)
    modifies c
    ensures Holds(c[..], m, n, Product(a, b, Start(mode, old(c[..]), n), n, k))
  {
    if n < 8 || m < 2 {
      AllRows(a, b, mode, c, m, 0, n, k);
      AllOverwritten(old(c[..]), c[..], m, n, Product(a, b, Start(mode, old(c[..]), n), n, k));
    } else {
      Blocked(a, b, mode, c, m, n, k);
    }
  }

  /** C = A B + bias per row, whatever C held. */
  method GemmBiasRow(a: seq<real>, b: seq<real>, bias: seq<real>, c: array<real>, m: nat, n: nat, k: nat)
    requires Shapes(a, b, Bias(bias), c, m, n, k)
    modifies c
    ensures Holds(c[..], m, n, RowBias(a, b, bias, n, k))
  {
    Multiply(a, b, Bias(bias), c, m, n, k);
    HoldsToo(c[..], m, n, Product(a, b, Start(Bias(bias), old(c[..]), n), n, k), RowBias(a, b, bias, n, k));
  }

  /** C += A B. */
  method GemmAdd(a: seq<real>, b: seq<real>, c: array<real>, m: nat, n: nat, k: nat)
    requires Shapes(a, b, Add, c, m, n, k)
    modifies c
    ensures Holds(c[..], m, n, Plus(a, b, old(c[..]), n, k))
  {
    Multiply(a, b, Add, c, m, n, k);
    HoldsToo(c[..], m, n, Product(a, b, Start(Add, old(c[..]), n), n, k), Plus(a, b, old(c[..]), n, k));
  }

  lemma HoldsToo(s: seq<real>, m: nat, n: nat, v: Cells<real>, w: Cells<real>)
    requires Holds(s, m, n, v) && forall i: nat, j: nat :: v(i, j) == w(i, j)
    ensures Holds(s, m, n, w)
  {
  }
}

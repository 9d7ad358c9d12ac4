/** Row-major buffers: where a cell lies, which cells a write touches, and finite sums
    over flattened indices. */
module Flat {

  // ----- indices

  /** Cell (i, j) of a matrix with `n` columns. */
  function Ix(i: nat, n: nat, j: nat): nat {
    i * n + j
  }

  lemma IxBound(i: nat, m: nat, n: nat, j: nat)
    requires i < m && j < n
    ensures Ix(i, n, j) < m * n
  {
    assert (i + 1) * n <= m * n;
  }

  lemma IxUnique(i: nat, j: nat, i': nat, j': nat, n: nat)
    requires j < n && j' < n && Ix(i, n, j) == Ix(i', n, j')
    ensures i == i' && j == j'
  {
    if i != i' {
      RowsApart(i, j, i', j', n);
      RowsApart(i', j', i, j, n);
    }
  }

  lemma RowsApart(i: nat, j: nat, i': nat, j': nat, n: nat)
    requires j < n
    ensures i < i' ==> Ix(i, n, j) < Ix(i', n, j')
  {
    if i < i' { assert (i + 1) * n <= i' * n; }
  }

  lemma IxAssoc(a: nat, n: nat, b: nat, k: nat, c: nat)
    ensures Ix(Ix(a, n, b), k, c) == Ix(a, n * k, Ix(b, k, c))
  {
    assert (a * n + b) * k == a * (n * k) + b * k;
  }

  lemma IxDiv(i: nat, n: nat, j: nat)
    requires j < n
    ensures Ix(i, n, j) / n == i && Ix(i, n, j) % n == j
  {
    var q, r := Ix(i, n, j) / n, Ix(i, n, j) % n;
    assert q * n + r == i * n + j;
    IxUnique(q, r, i, j, n);
  }

  lemma IxSplit(x: nat, m: nat, n: nat)
    requires x < m * n
    ensures n > 0 && x / n < m && x % n < n && x == Ix(x / n, n, x % n)
  {
    assert n > 0;
    RowsApart(m - 1, n - 1, x / n, x % n, n);
    assert Ix(m - 1, n, n - 1) == m * n - 1;
  }

  // ----- windows

  /** The window of `k` samples that starts `i` strides in ends within `l` samples. */
  predicate WindowInside(i: nat, stride: nat, k: nat, l: nat) {
    i * stride + k <= l
  }

  /** A row of `l` samples has one output position for each window that fits, and no other. */
  lemma WindowCount(l: nat, k: nat, stride: nat, i: nat)
    requires k <= l && stride > 0
    ensures i < (l - k) / stride + 1 <==> i * stride + k <= l
  {
    var q, r := (l - k) / stride, (l - k) % stride;
    assert l - k == q * stride + r;
    if i <= q {
      assert i * stride <= q * stride;
    } else {
      assert i * stride >= (q + 1) * stride;
    }
  }

  /** `n` is the number of windows that fit. */
  ghost predicate CountsWindows(n: nat, l: nat, k: nat, stride: nat) {
    forall i: nat :: i < n <==> WindowInside(i, stride, k, l)
  }

  lemma WindowsCounted(l: nat, k: nat, stride: nat)
    requires k <= l && stride > 0
    ensures CountsWindows((l - k) / stride + 1, l, k, stride)
  {
    forall i: nat ensures i < (l - k) / stride + 1 <==> WindowInside(i, stride, k, l) {
      WindowCount(l, k, stride, i);
    }
  }

  // ----- sums

  function Sum(f: nat -> real, n: nat): real {
    if n == 0 then 0.0 else Sum(f, n - 1) + f(n - 1)
  }

  lemma {:induction false} SumEq(f: nat -> real, g: nat -> real, n: nat)
    requires forall i: nat :: i < n ==> f(i) == g(i)
    ensures Sum(f, n) == Sum(g, n)
  {
    if n > 0 { SumEq(f, g, n - 1); }
  }

  /** The `i`th run of `n` values. */
  function Run(f: nat -> real, n: nat, i: nat): nat -> real {
    (j: nat) => f(Ix(i, n, j))
  }

  function RunSums(f: nat -> real, n: nat): nat -> real {
    (i: nat) => Sum(Run(f, n, i), n)
  }

  lemma {:induction false} SumRun(f: nat -> real, n: nat, i: nat, k: nat)
    ensures Sum(f, Ix(i, n, k)) == Sum(f, Ix(i, n, 0)) + Sum(Run(f, n, i), k)
  {
    if k > 0 { SumRun(f, n, i, k - 1); }
  }

  /** A sum over a flattened index is a sum of sums. */
  lemma {:induction false} SumFlat(f: nat -> real, m: nat, n: nat)
    ensures Sum(f, m * n) == Sum(RunSums(f, n), m)
  {
    if m > 0 {
      SumFlat(f, m - 1, n);
      SumRun(f, n, m - 1, n);
      assert Ix(m - 1, n, n) == m * n && Ix(m - 1, n, 0) == (m - 1) * n;
    }
  }

  // ----- matrices in a buffer

  type Cells<T> = (nat, nat) -> T

  /** The buffer holds the m by n matrix `v`. */
  ghost predicate Holds<T>(s: seq<T>, m: nat, n: nat, v: Cells<T>) {
    && |s| == m * n
    && forall i: nat, j: nat :: i < m && j < n ==> s[Bounded(i, m, n, j)] == v(i, j)
  }

  /** `Ix` within an m by n buffer. */
  ghost function Bounded(i: nat, m: nat, n: nat, j: nat): (x: nat)
    requires i < m && j < n
    ensures x == Ix(i, n, j) && x < m * n
  {
    IxBound(i, m, n, j);
    Ix(i, n, j)
  }

  /** `t` is `s` with rows i0..i1, columns j0..j1 replaced by those of `v`. */
  ghost predicate Overwritten<T>(s: seq<T>, t: seq<T>, m: nat, n: nat, i0: nat, i1: nat, j0: nat, j1: nat,
      v: Cells<T>) {
    && |s| == |t| == m * n
    && forall i: nat, j: nat :: i < m && j < n ==>
         t[Bounded(i, m, n, j)] == if i0 <= i < i1 && j0 <= j < j1 then v(i, j) else s[Bounded(i, m, n, j)]
  }

  function Patch<T>(s: seq<T>, at: nat, row: seq<T>): (t: seq<T>)
    requires at + |row| <= |s|
    ensures |t| == |s|
    ensures forall x :: 0 <= x < |s| ==> t[x] == if at <= x < at + |row| then row[x - at] else s[x]
  {
    s[..at] + row + s[at + |row|..]
  }

  lemma SegmentFits(m: nat, n: nat, i: nat, j0: nat, len: nat)
    requires i < m && j0 + len <= n
    ensures Ix(i, n, j0) + len <= m * n
  {
    assert (i + 1) * n <= m * n;
  }

  /** Writing part of a row changes those cells and no others. */
  lemma PatchRow<T>(s: seq<T>, m: nat, n: nat, i: nat, j0: nat, row: seq<T>, v: Cells<T>)
    requires |s| == m * n && i < m && j0 + |row| <= n
    requires forall j :: 0 <= j < |row| ==> row[j] == v(i, j0 + j)
    ensures Ix(i, n, j0) + |row| <= |s|
    ensures Overwritten(s, Patch(s, Ix(i, n, j0), row), m, n, i, i + 1, j0, j0 + |row|, v)
  {
    SegmentFits(m, n, i, j0, |row|);
    var t, at := Patch(s, Ix(i, n, j0), row), Ix(i, n, j0);
    forall i': nat, j': nat | i' < m && j' < n
      ensures t[Bounded(i', m, n, j')] ==
        if i <= i' < i + 1 && j0 <= j' < j0 + |row| then v(i', j') else s[Bounded(i', m, n, j')]
    {
      var x := Bounded(i', m, n, j');
      if at <= x < at + |row| {
        IxUnique(i, j0 + (x - at), i', j', n);
        assert row[x - at] == v(i, j0 + (x - at));
      }
    }
  }

  lemma NothingOverwritten<T>(s: seq<T>, m: nat, n: nat, i0: nat, i1: nat, j0: nat, j1: nat, v: Cells<T>)
    requires |s| == m * n && (i0 == i1 || j0 == j1)
    ensures Overwritten(s, s, m, n, i0, i1, j0, j1, v)
  {
  }

  lemma MoreColumns<T>(s: seq<T>, t: seq<T>, u: seq<T>, m: nat, n: nat, i0: nat, i1: nat, j0: nat, j1: nat, j2: nat,
      v: Cells<T>)
    requires j0 <= j1 <= j2
    requires Overwritten(s, t, m, n, i0, i1, j0, j1, v) && Overwritten(t, u, m, n, i0, i1, j1, j2, v)
    ensures Overwritten(s, u, m, n, i0, i1, j0, j2, v)
  {
  }

  lemma MoreRows<T>(s: seq<T>, t: seq<T>, u: seq<T>, m: nat, n: nat, i0: nat, i1: nat, i2: nat, j0: nat, j1: nat,
      v: Cells<T>)
    requires i0 <= i1 <= i2
    requires Overwritten(s, t, m, n, i0, i1, j0, j1, v) && Overwritten(t, u, m, n, i1, i2, j0, j1, v)
    ensures Overwritten(s, u, m, n, i0, i2, j0, j1, v)
  {
  }

  /** The next row of a block, written in place. */
  lemma NextRow<T>(s: seq<T>, t: seq<T>, m: nat, n: nat, i0: nat, i: nat, j0: nat, j1: nat, row: seq<T>, v: Cells<T>)
    requires i0 <= i < m && j0 + |row| == j1 <= n && Overwritten(s, t, m, n, i0, i, j0, j1, v)
    requires forall j :: 0 <= j < |row| ==> row[j] == v(i, j0 + j)
    ensures Ix(i, n, j0) + |row| <= |t|
    ensures Overwritten(s, Patch(t, Ix(i, n, j0), row), m, n, i0, i + 1, j0, j1, v)
  {
    PatchRow(t, m, n, i, j0, row, v);
    MoreRows(s, t, Patch(t, Ix(i, n, j0), row), m, n, i0, i, i + 1, j0, j1, v);
  }

  lemma AllOverwritten<T>(s: seq<T>, t: seq<T>, m: nat, n: nat, v: Cells<T>)
    requires Overwritten(s, t, m, n, 0, m, 0, n, v)
    ensures Holds(t, m, n, v)
  {
  }

  /** Copy a row into a buffer. */
  method CopyInto<T>(c: array<T>, at: nat, row: seq<T>)
    requires at + |row| <= c.Length
    modifies c
    ensures c[..] == Patch(old(c[..]), at, row)
  {
    for x := 0 to |row|
      invariant c[..] == Patch(old(c[..]), at, row[..x])
    {
      c[at + x] := row[x];
    }
    assert row[..|row|] == row;
  }
}

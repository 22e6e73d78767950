/**
 The stream parser and the three permutations of the BCC interleaver
 (sections 22.3.10.6 and 22.3.10.8 of IEEE Std 802.11ac-2013) as index functions,
 with their inverses.  Positions are counted from 0.
 */
module Interleaver {
  import DivMod

  /** The geometry of one interleaver: N_COL columns, N_ROW rows, s bits per axis. */
  datatype Shape = Shape(cols: nat, rows: nat, s: nat) {
    ghost predicate Valid() {
      0 < cols && 0 < rows && 0 < s && rows % s == 0
    }

    function Size(): nat {
      cols * rows
    }
  }

  // ---------------------------------------------------------------------------
  // First permutation: write by rows, read by columns
  // ---------------------------------------------------------------------------

  function RowColumn(sh: Shape, k: nat): (i: nat)
    requires sh.Valid() && k < sh.Size()
    ensures i < sh.Size()
  {
    TransposeBound(sh.cols, sh.rows, k);
    sh.rows * (k % sh.cols) + k / sh.cols
  }

  lemma TransposeBound(c: nat, r: nat, k: nat)
    requires 0 < c && 0 < r && k < c * r
    ensures 0 <= k / c < r
    ensures 0 <= r * (k % c) + k / c < c * r
  {
    DivMod.QuotientBound(k, c, r);
    var t := k % c;
    DivMod.Scale(t, c - 1, r);
    DivMod.Scale(0, t, r);
    DivMod.Distribute(c, 1, r);
  }

  function RowColumnInverse(sh: Shape, i: nat): (k: nat)
    requires sh.Valid() && i < sh.Size()
    ensures k < sh.Size()
  {
    TransposeBound(sh.rows, sh.cols, i);
    sh.cols * (i % sh.rows) + i / sh.rows
  }

  lemma RowColumnRoundTrip(sh: Shape, k: nat)
    requires sh.Valid() && k < sh.Size()
    ensures RowColumnInverse(sh, RowColumn(sh, k)) == k
    ensures RowColumn(sh, RowColumnInverse(sh, k)) == k
  {
    var c, r := sh.cols, sh.rows;
    TransposeBound(c, r, k);
    DivMod.Unique(RowColumn(sh, k), r, k % c, k / c);
    DivMod.Split(k, c);
    TransposeBound(r, c, k);
    DivMod.Unique(RowColumnInverse(sh, k), c, k % r, k / r);
    DivMod.Split(k, r);
  }

  lemma RowColumnIndex(sh: Shape, k: nat)
    requires sh.Valid() && k < sh.Size()
    ensures RowColumn(sh, k) == sh.rows * (k % sh.cols) + k / sh.cols
  {
  }

  lemma RowColumnInjective(sh: Shape)
    requires sh.Valid()
    ensures forall i, j :: 0 <= i < j < sh.Size() ==> RowColumn(sh, i) != RowColumn(sh, j)
  {
    hide RowColumn, RowColumnInverse;
    forall i, j | 0 <= i < j < sh.Size()
      ensures RowColumn(sh, i) != RowColumn(sh, j)
    {
      RowColumnRoundTrip(sh, i);
      RowColumnRoundTrip(sh, j);
    }
  }

  // ---------------------------------------------------------------------------
  // Second permutation: a rotation inside each block of s bits
  // ---------------------------------------------------------------------------

  /** Position t of s-block b. */
  function InBlock(s: int, b: int, t: int): int {
    s * b + t
  }

  /** The index computed by the source, with both of its divisions. */
  function BlockRotate(sh: Shape, k: nat): (j: nat)
    requires sh.Valid() && k < sh.Size()
    ensures j < sh.Size()
  {
    var n := sh.Size();
    var t := (k + n - sh.cols * k / n) % sh.s;
    BlockBound(sh, k, t);
    InBlock(sh.s, k / sh.s, t)
  }

  function BlockRotateInverse(sh: Shape, j: nat): (k: nat)
    requires sh.Valid() && j < sh.Size()
    ensures k < sh.Size()
  {
    var t := (j + j / sh.rows) % sh.s;
    BlockBound(sh, j, t);
    InBlock(sh.s, j / sh.s, t)
  }

  lemma SizeInBlocks(sh: Shape)
    requires sh.Valid()
    ensures 0 < sh.rows / sh.s
    ensures sh.rows == sh.rows / sh.s * sh.s
    ensures sh.Size() == sh.s * (sh.cols * (sh.rows / sh.s))
  {
    DivMod.ExactFactor(sh.rows, sh.s);
    DivMod.Associate(sh.cols, sh.rows / sh.s, sh.s);
  }

  /** Replacing the offset inside an s-block stays inside the block and in range. */
  lemma BlockBound(sh: Shape, k: nat, t: int)
    requires sh.Valid() && k < sh.Size() && 0 <= t < sh.s
    ensures 0 <= InBlock(sh.s, k / sh.s, t) < sh.Size()
    ensures InBlock(sh.s, k / sh.s, t) / sh.s == k / sh.s
    ensures InBlock(sh.s, k / sh.s, t) % sh.s == t
  {
    SizeInBlocks(sh);
    var s, blocks, b := sh.s, sh.cols * (sh.rows / sh.s), k / sh.s;
    DivMod.QuotientBound(k, s, blocks);
    DivMod.Scale(b, blocks - 1, s);
    DivMod.Scale(0, b, s);
    DivMod.Distribute(blocks, 1, s);
    DivMod.Unique(s * b + t, s, b, t);
  }

  /** floor(N_COL * k / N_CBPSS) is the row group floor(k / N_ROW), and the size is a
      multiple of s, so adding it under % s changes nothing. */
  lemma BlockRotateOffset(sh: Shape, k: nat)
    requires sh.Valid() && k < sh.Size()
    ensures BlockRotate(sh, k) == InBlock(sh.s, k / sh.s, (k % sh.s - k / sh.rows) % sh.s)
    ensures BlockRotateInverse(sh, k) == InBlock(sh.s, k / sh.s, (k % sh.s + k / sh.rows) % sh.s)
  {
    SizeInBlocks(sh);
    DivMod.CancelFactor(sh.cols, k, sh.rows);
    var s, g, blocks := sh.s, k / sh.rows, sh.cols * (sh.rows / sh.s);
    assert sh.Size() == blocks * s;
    DivMod.AddMultiple(k - g, blocks, s);
    DivMod.ReduceInside(k, -g, s);
    DivMod.ReduceInside(k, g, s);
  }

  lemma InOwnBlock(k: int, s: int)
    requires 0 < s
    ensures InBlock(s, k / s, k % s) == k
  {
    DivMod.Split(k, s);
  }

  /** A position and its image lie in one s-block, hence in one row group. */
  lemma BlockKept(sh: Shape, k: nat, j: nat, t: int)
    requires sh.Valid() && k < sh.Size() && 0 <= t < sh.s
    requires j == InBlock(sh.s, k / sh.s, t)
    ensures j < sh.Size() && j / sh.s == k / sh.s && j % sh.s == t && j / sh.rows == k / sh.rows
  {
    BlockBound(sh, k, t);
    DivMod.SameCoarserBlock(j, k, sh.s, sh.rows);
  }

  /** So both are rotated by the same amount and the rotation can be undone. */
  lemma BlockRotateBack(sh: Shape, k: nat)
    requires sh.Valid() && k < sh.Size()
    ensures BlockRotateInverse(sh, BlockRotate(sh, k)) == k
    ensures BlockRotate(sh, k) / sh.s == k / sh.s
  {
    hide BlockRotate, BlockRotateInverse, InBlock;
    var s, g, t := sh.s, k / sh.rows, k % sh.s;
    var j := BlockRotate(sh, k);
    BlockRotateOffset(sh, k);
    BlockKept(sh, k, j, (t - g) % s);
    BlockRotateOffset(sh, j);
    DivMod.RotateBack(t, g, s);
    InOwnBlock(k, s);
  }

  lemma BlockRotateForth(sh: Shape, k: nat)
    requires sh.Valid() && k < sh.Size()
    ensures BlockRotate(sh, BlockRotateInverse(sh, k)) == k
  {
    hide BlockRotate, BlockRotateInverse, InBlock;
    var s, g, t := sh.s, k / sh.rows, k % sh.s;
    var i := BlockRotateInverse(sh, k);
    BlockRotateOffset(sh, k);
    BlockKept(sh, k, i, (t + g) % s);
    BlockRotateOffset(sh, i);
    DivMod.RotateBack(t, g, s);
    InOwnBlock(k, s);
  }

  lemma BlockRotateIndex(sh: Shape, k: nat)
    requires sh.Valid() && k < sh.Size()
    ensures BlockRotate(sh, k) == sh.s * (k / sh.s) + (k + sh.Size() - sh.cols * k / sh.Size()) % sh.s
  {
  }

  lemma BlockRotateInjective(sh: Shape)
    requires sh.Valid()
    ensures forall i, j :: 0 <= i < j < sh.Size() ==> BlockRotate(sh, i) != BlockRotate(sh, j)
  {
    hide BlockRotate, BlockRotateInverse;
    forall i, j | 0 <= i < j < sh.Size()
      ensures BlockRotate(sh, i) != BlockRotate(sh, j)
    {
      BlockRotateBack(sh, i);
      BlockRotateBack(sh, j);
    }
  }

  // ---------------------------------------------------------------------------
  // Third permutation: a rotation of the whole symbol
  // ---------------------------------------------------------------------------

  function Rotate(n: nat, k: nat, amount: nat): (r: nat)
    requires k < n
    ensures r < n
  {
    (k - amount) % n
  }

  function RotateInverse(n: nat, r: nat, amount: nat): (k: nat)
    requires r < n
    ensures k < n
  {
    (r + amount) % n
  }

  lemma RotateRoundTrip(n: nat, k: nat, amount: nat)
    requires k < n
    ensures RotateInverse(n, Rotate(n, k, amount), amount) == k
    ensures Rotate(n, RotateInverse(n, k, amount), amount) == k
  {
    DivMod.RotateBack(k, amount, n);
  }

  lemma RotateInjective(n: nat, amount: nat)
    ensures forall i, j :: 0 <= i < j < n ==> Rotate(n, i, amount) != Rotate(n, j, amount)
  {
    hide Rotate, RotateInverse;
    forall i, j | 0 <= i < j < n
      ensures Rotate(n, i, amount) != Rotate(n, j, amount)
    {
      RotateRoundTrip(n, i, amount);
      RotateRoundTrip(n, j, amount);
    }
  }

  lemma AddOnce(x: int, n: nat)
    requires 0 < n
    ensures (x + n) % n == x % n
  {
    DivMod.AddMultiple(x, 1, n);
  }

  lemma ResidueItself(x: nat, n: nat)
    requires x < n
    ensures x % n == x
  {
    DivMod.Unique(x, n, 0, x);
  }

  // ---------------------------------------------------------------------------
  // The three permutations of one stream
  // ---------------------------------------------------------------------------

  function Permuted(sh: Shape, amount: nat, k: nat): (r: nat)
    requires sh.Valid() && k < sh.Size()
    ensures r < sh.Size()
  {
    Rotate(sh.Size(), BlockRotate(sh, RowColumn(sh, k)), amount)
  }

  function PermutedInverse(sh: Shape, amount: nat, r: nat): (k: nat)
    requires sh.Valid() && r < sh.Size()
    ensures k < sh.Size()
  {
    RowColumnInverse(sh, BlockRotateInverse(sh, RotateInverse(sh.Size(), r, amount)))
  }

  /** The three permutations compose to a bijection, for every number of rows and
      columns, every s dividing the rows and every rotation. */
  lemma PermutedRoundTrip(sh: Shape, amount: nat, k: nat)
    requires sh.Valid() && k < sh.Size()
    ensures PermutedInverse(sh, amount, Permuted(sh, amount, k)) == k
    ensures Permuted(sh, amount, PermutedInverse(sh, amount, k)) == k
  {
    hide RowColumn, RowColumnInverse, BlockRotate, BlockRotateInverse, Rotate, RotateInverse;
    var n := sh.Size();
    var i := RowColumn(sh, k);
    RowColumnRoundTrip(sh, k);
    BlockRotateBack(sh, i);
    RotateRoundTrip(n, BlockRotate(sh, i), amount);
    var j := RotateInverse(n, k, amount);
    RotateRoundTrip(n, k, amount);
    BlockRotateForth(sh, j);
    RowColumnRoundTrip(sh, BlockRotateInverse(sh, j));
  }
}

/**
 The loops of the interleaver, which BCC_encoder runs on coded bits and
 generate_stream_code_in_table runs on the indices of the coded bits.
 Both work on two-dimensional buffers, one row for each stream.
 */
module InterleaverLoops {
  import I = Interleaver
  import T = Transmitter

  /** Column y of `to` holds what column x of `from` holds. */
  ghost predicate ColumnMoved<E>(from: array2<E>, x: int, to: array2<E>, y: int)
    requires from.Length0 == to.Length0 && 0 <= x < from.Length1 && 0 <= y < to.Length1
    reads from, to
  {
    forall ss :: 0 <= ss < to.Length0 ==> to[ss, y] == from[ss, x]
  }

  /** Loop over k and i_ss of the first permutation. */
  method WriteByRowsReadByColumns<E>(from: array2<E>, to: array2<E>, base: nat, sh: I.Shape)
    requires sh.Valid() && from != to
    requires from.Length0 == to.Length0
    requires base + sh.Size() <= from.Length1 && base + sh.Size() <= to.Length1
    modifies to
    ensures forall k :: 0 <= k < sh.Size() ==>
              ColumnMoved(from, base + k, to, base + I.RowColumn(sh, k))
    ensures forall ss, x :: 0 <= ss < to.Length0 && 0 <= x < to.Length1 && !(base <= x < base + sh.Size()) ==>
              to[ss, x] == old(to[ss, x])
  {
    hide I.RowColumn;
    var n := sh.Size();
    I.RowColumnInjective(sh);
    for k := 0 to n
      invariant forall k' :: 0 <= k' < k ==>
                  ColumnMoved(from, base + k', to, base + I.RowColumn(sh, k'))
      invariant forall ss, x :: 0 <= ss < to.Length0 && 0 <= x < to.Length1 && !(base <= x < base + n) ==>
                  to[ss, x] == old(to[ss, x])
    {
      var i := sh.rows * (k % sh.cols) + k / sh.cols;
      I.RowColumnIndex(sh, k);
      var src, dst := base + k, base + i;
      for ss := 0 to to.Length0
        invariant forall k' :: 0 <= k' < k ==>
                    ColumnMoved(from, base + k', to, base + I.RowColumn(sh, k'))
        invariant forall s :: 0 <= s < ss ==> to[s, dst] == from[s, src]
        invariant forall s, x :: 0 <= s < to.Length0 && 0 <= x < to.Length1 && !(base <= x < base + n) ==>
                    to[s, x] == old(to[s, x])
      {
        to[ss, dst] := from[ss, src];
      }
    }
  }

  /** Loop over k and i_ss of the second permutation. */
  method RotateWithinBlocks<E>(from: array2<E>, to: array2<E>, base: nat, sh: I.Shape)
    requires sh.Valid() && from != to
    requires from.Length0 == to.Length0
    requires base + sh.Size() <= from.Length1 && base + sh.Size() <= to.Length1
    modifies to
    ensures forall k :: 0 <= k < sh.Size() ==>
              ColumnMoved(from, base + k, to, base + I.BlockRotate(sh, k))
    ensures forall ss, x :: 0 <= ss < to.Length0 && 0 <= x < to.Length1 && !(base <= x < base + sh.Size()) ==>
              to[ss, x] == old(to[ss, x])
  {
    hide I.BlockRotate;
    var n := sh.Size();
    I.BlockRotateInjective(sh);
    for k := 0 to n
      invariant forall k' :: 0 <= k' < k ==>
                  ColumnMoved(from, base + k', to, base + I.BlockRotate(sh, k'))
      invariant forall ss, x :: 0 <= ss < to.Length0 && 0 <= x < to.Length1 && !(base <= x < base + n) ==>
                  to[ss, x] == old(to[ss, x])
    {
      var block := k / sh.s;
      var group := k + n - sh.cols * k / n;
      var j := sh.s * block + group % sh.s;
      I.BlockRotateIndex(sh, k);
      var src, dst := base + k, base + j;
      for ss := 0 to to.Length0
        invariant forall k' :: 0 <= k' < k ==>
                    ColumnMoved(from, base + k', to, base + I.BlockRotate(sh, k'))
        invariant forall s :: 0 <= s < ss ==> to[s, dst] == from[s, src]
        invariant forall s, x :: 0 <= s < to.Length0 && 0 <= x < to.Length1 && !(base <= x < base + n) ==>
                    to[s, x] == old(to[s, x])
      {
        to[ss, dst] := from[ss, src];
      }
    }
  }

  /** The subtraction loop of the third permutation ends at the residue. */
  method ReduceIndex(k: nat, amount: nat, n: nat) returns (r: nat)
    requires k < n
    ensures r == I.Rotate(n, k, amount)
  {
    var x := k - amount;
    while x < 0
      invariant x < n
      invariant x % n == (k - amount) % n
      decreases -x
    {
      I.AddOnce(x, n);
      x := x + n;
    }
    I.ResidueItself(x, n);
    r := x;
  }

  /** Loop over i_ss and k of the third permutation; its three branches on the number of
      streams differ only in the amount of the rotation, which is 0 for one stream. */
  method RotateStreams<E>(from: array2<E>, to: array2<E>, base: nat, c: T.Config)
    requires c.Valid() && from != to
    requires from.Length0 == to.Length0 == c.nSts
    requires base + c.PerStream() <= from.Length1 && base + c.PerStream() <= to.Length1
    modifies to
    ensures forall ss, k :: 0 <= ss < c.nSts && 0 <= k < c.PerStream() ==>
              to[ss, base + I.Rotate(c.PerStream(), k, T.Rotation(c, ss))] == from[ss, base + k]
    ensures forall ss, x :: 0 <= ss < c.nSts && 0 <= x < to.Length1 && !(base <= x < base + c.PerStream()) ==>
              to[ss, x] == old(to[ss, x])
  {
    hide I.Rotate, T.Rotation;
    var n := c.PerStream();
    for ss := 0 to c.nSts
      invariant forall s, k :: 0 <= s < ss && 0 <= k < n ==>
                  to[s, base + I.Rotate(n, k, T.Rotation(c, s))] == from[s, base + k]
      invariant forall s, x :: 0 <= s < c.nSts && 0 <= x < to.Length1 && !(base <= x < base + n) ==>
                  to[s, x] == old(to[s, x])
    {
      var index;
      if c.nSts == 1 {
        index := 0;
      } else if c.nSts >= 5 {
        index := T.ROTATIONS[ss] * 28 * c.nBpscs;
      } else {
        index := ((2 * ss) % 3 + 3 * (ss / 3)) * 58 * c.nBpscs;
      }
      T.RotationIndex(c, ss);
      I.RotateInjective(n, index);
      for k := 0 to n
        invariant forall s, k' :: 0 <= s < ss && 0 <= k' < n ==>
                    to[s, base + I.Rotate(n, k', T.Rotation(c, s))] == from[s, base + k']
        invariant forall k' :: 0 <= k' < k ==>
                    to[ss, base + I.Rotate(n, k', index)] == from[ss, base + k']
        invariant forall s, x :: 0 <= s < c.nSts && 0 <= x < to.Length1 && !(base <= x < base + n) ==>
                    to[s, x] == old(to[s, x])
      {
        var r := ReduceIndex(k, index, n);
        to[ss, base + r] := from[ss, base + k];
      }
    }
  }

  /** The three permutations of one symbol, with the parser buffer as scratch space. */
  method InterleaveSymbol<E>(parser: array2<E>, codeOut: array2<E>, base: nat, c: T.Config)
    requires c.Valid() && parser != codeOut
    requires parser.Length0 == codeOut.Length0 == c.nSts
    requires base + c.PerStream() <= parser.Length1 && base + c.PerStream() <= codeOut.Length1
    modifies parser, codeOut
    ensures forall ss, k :: 0 <= ss < c.nSts && 0 <= k < c.PerStream() ==>
              codeOut[ss, base + T.Position(c, ss, k)] == old(parser[ss, base + k])
    ensures forall ss, x :: 0 <= ss < c.nSts && 0 <= x < codeOut.Length1 && !(base <= x < base + c.PerStream()) ==>
              codeOut[ss, x] == old(codeOut[ss, x])
    ensures forall ss, x :: 0 <= ss < c.nSts && 0 <= x < parser.Length1 && !(base <= x < base + c.PerStream()) ==>
              parser[ss, x] == old(parser[ss, x])
  {
    hide I.RowColumn, I.BlockRotate, I.Rotate, T.Rotation;
    T.ConfigShape(c);
    var sh := c.Interleaving();
    WriteByRowsReadByColumns(parser, codeOut, base, sh);
    label written:
    RotateWithinBlocks(codeOut, parser, base, sh);
    label rotated:
    RotateStreams(parser, codeOut, base, c);
    forall ss, k | 0 <= ss < c.nSts && 0 <= k < c.PerStream()
      ensures codeOut[ss, base + T.Position(c, ss, k)] == old(parser[ss, base + k])
    {
      T.PositionSteps(c, ss, k);
      var i := I.RowColumn(sh, k);
      var j := I.BlockRotate(sh, i);
      var x, via, to := base + k, base + i, base + j;
      assert old@written(ColumnMoved(parser, x, codeOut, via));
      assert old@rotated(ColumnMoved(codeOut, via, parser, to));
      assert old@written(codeOut[ss, via]) == old(parser[ss, x]);
      assert old@rotated(parser[ss, to]) == old@rotated(codeOut[ss, via]);
    }
  }

  /** The stream parser: fills one row of the parser buffer for each stream. */
  method ParseStreams<E(0)>(output: array<E>, nSym: nat, c: T.Config) returns (parser: array2<E>)
    requires c.Valid()
    requires nSym * c.PerSymbol() <= output.Length
    ensures fresh(parser) && parser.Length0 == c.nSts && parser.Length1 == nSym * c.PerStream()
    ensures forall ss, k :: 0 <= ss < c.nSts && 0 <= k < parser.Length1 ==>
              T.Parsed(c, ss, k) < output.Length && parser[ss, k] == output[T.Parsed(c, ss, k)]
  {
    hide T.Parsed;
    var s, length := c.BitsPerAxis(), nSym * c.PerStream();
    parser := new E[c.nSts, length];
    for ss := 0 to c.nSts
      invariant forall x, k :: 0 <= x < ss && 0 <= k < length ==>
                  T.Parsed(c, x, k) < output.Length && parser[x, k] == output[T.Parsed(c, x, k)]
    {
      for k := 0 to length
        invariant forall x, k :: 0 <= x < ss && 0 <= k < length ==>
                    T.Parsed(c, x, k) < output.Length && parser[x, k] == output[T.Parsed(c, x, k)]
        invariant forall k' :: 0 <= k' < k ==>
                    T.Parsed(c, ss, k') < output.Length && parser[ss, k'] == output[T.Parsed(c, ss, k')]
      {
        var i := ss * s + c.nSts * s * (k / s) + k % s;
        T.ParsedIndex(c, ss, k);
        T.ParsedRange(c, ss, k, nSym);
        parser[ss, k] := output[i];
      }
    }
  }

  /** BCC_encoder from the stream parser on: `output` holds the coded bits of nSym
      symbols, and every stream receives its interleaved bits. */
  method BccInterleave<E(0)>(output: array<E>, nSym: nat, c: T.Config, codeOut: array2<E>)
    requires c.Valid()
    requires nSym * c.PerSymbol() <= output.Length
    requires codeOut.Length0 == c.nSts && codeOut.Length1 == nSym * c.PerStream()
    modifies codeOut
    ensures forall ss, x :: 0 <= ss < c.nSts && 0 <= x < codeOut.Length1 ==>
              T.CodedAt(c, ss, x) < output.Length && codeOut[ss, x] == output[T.CodedAt(c, ss, x)]
  {
    hide T.Position, T.Origin, T.Parsed, T.CodedAt;
    var n := c.PerStream();
    var parser := ParseStreams(output, nSym, c);
    for sym := 0 to nSym
      invariant forall ss, x :: 0 <= ss < c.nSts && sym * n <= x < nSym * n ==>
                  T.Parsed(c, ss, x) < output.Length && parser[ss, x] == output[T.Parsed(c, ss, x)]
      invariant forall ss, x :: 0 <= ss < c.nSts && 0 <= x < sym * n ==>
                  T.CodedAt(c, ss, x) < output.Length && codeOut[ss, x] == output[T.CodedAt(c, ss, x)]
    {
      var base := sym * n;
      T.NextSymbol(sym, nSym, n);
      label before:
      InterleaveSymbol(parser, codeOut, base, c);
      forall ss, x | 0 <= ss < c.nSts && base <= x < base + n
        ensures T.CodedAt(c, ss, x) < output.Length && codeOut[ss, x] == output[T.CodedAt(c, ss, x)]
      {
        var o := T.Origin(c, ss, x - base);
        T.CodedAtSymbol(c, ss, sym, x - base);
        T.PositionRoundTrip(c, ss, x - base);
        assert codeOut[ss, base + T.Position(c, ss, o)] == old@before(parser[ss, base + o]);
      }
    }
  }

  /** generate_stream_code_in_table: the interleaver run on the indices of one symbol's
      coded bits leaves in every place the index of the bit that belongs there. */
  method GenerateStreamCodeInTable(c: T.Config, codeIn: array2<int>)
    requires c.Valid()
    requires codeIn.Length0 == c.nSts && codeIn.Length1 == c.PerStream()
    modifies codeIn
    ensures forall ss, r :: 0 <= ss < c.nSts && 0 <= r < c.PerStream() ==>
              codeIn[ss, r] == T.TableEntry(c, ss, r)
  {
    hide T.CodedAt, T.TableEntry;
    var length := c.PerStream() * c.nSts;
    var output := new int[length];
    for p := 0 to length
      invariant forall q :: 0 <= q < p ==> output[q] == q
    {
      output[p] := p;
    }
    BccInterleave(output, 1, c, codeIn);
    forall ss, r | 0 <= ss < c.nSts && 0 <= r < c.PerStream()
      ensures codeIn[ss, r] == T.TableEntry(c, ss, r)
    {
      T.TableEntryIsCodedAt(c, ss, r);
    }
  }
}

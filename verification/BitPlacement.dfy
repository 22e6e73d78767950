/**
 Where parser and interleaver put a bit, said without the names of their parts: the stream
 of each coded bit, and the subcarrier, the axis and the significance of each bit of a
 stream.
 */
module BitPlacement {
  import DivMod
  import I = Interleaver
  import P = StreamParser
  import opened Transmitter

  // ---------------------------------------------------------------------------
  // The parser
  // ---------------------------------------------------------------------------

  /** Each stream in turn gets as many consecutive coded bits as one axis takes: coded bit i
      belongs to block i / (N_BPSCS / 2), and the blocks go round the streams. */
  lemma StreamOfCodedBit(c: Config, ss: nat, k: nat)
    requires c.Valid() && c.nBpscs >= 4 && ss < c.nSts
    ensures var s, i := c.nBpscs / 2, Parsed(c, ss, k);
      i / s % c.nSts == ss && i / s / c.nSts == k / s && i % s == k % s
  {
    RoundTheStreams(c.nBpscs / 2, c.nSts, ss, k);
  }

  /** With one bit an axis or fewer the streams take one coded bit each. */
  lemma StreamOfSingleBit(c: Config, ss: nat, k: nat)
    requires c.Valid() && c.nBpscs < 4 && ss < c.nSts
    ensures Parsed(c, ss, k) % c.nSts == ss && Parsed(c, ss, k) / c.nSts == k
  {
    RoundTheStreams(1, c.nSts, ss, k);
  }

  lemma RoundTheStreams(s: nat, streams: nat, ss: nat, k: nat)
    requires 0 < s && ss < streams
    ensures var i := P.Parsed(s, streams, ss, k);
      i / s % streams == ss && i / s / streams == k / s && i % s == k % s
  {
    P.ParsedBlock(s, streams, ss, k);
    DivMod.Split(k, s);
    DivMod.Unique(P.Parsed(s, streams, ss, k), s, k / s * streams + ss, k % s);
    DivMod.Unique(k / s * streams + ss, streams, k / s, ss);
  }

  // ---------------------------------------------------------------------------
  // The second permutation
  // ---------------------------------------------------------------------------

  /** The second permutation spreads consecutive bits over more and less significant bits of
      the constellation: bit k of a stream, in row k / 26 and column k % 26, gets
      significance row - column modulo N_BPSCS / 2, on the axis that its row selects. */
  lemma Significance(c: Config, ss: nat, k: nat)
    requires c.Valid() && c.nBpscs >= 4 && ss < c.nSts && k < c.PerStream()
    ensures var s, r := c.nBpscs / 2, Position(c, ss, k);
      r % s == (k / 26 - k % 26) % s && r / s % 2 == k / 26 / s % 2
  {
    hide I.RowColumn, I.BlockRotate, I.Rotate, SubcarrierRotation;
    var s, b, sh := c.nBpscs / 2, c.nBpscs, c.Interleaving();
    var row, column := k / 26, k % 26;
    PositionSteps(c, ss, k);
    I.RowColumnIndex(sh, k);
    var i := I.RowColumn(sh, k);
    RowAndColumn(b, row, column, i);
    I.BlockRotateOffset(sh, i);
    I.BlockBound(sh, i, (i % s - i / sh.rows) % s);
    DivMod.ReduceInside(row, -column, s);
    var j := I.BlockRotate(sh, i);
    assert j / s == i / s && j % s == (row - column) % s;
    WholeSubcarriers(j, SubcarrierRotation(c, ss), s, 234);
    RotateIs(sh.Size(), j, Rotation(c, ss));
  }

  lemma RotateIs(size: nat, j: nat, amount: nat)
    requires j < size
    ensures I.Rotate(size, j, amount) == (j - amount) % size
  {
  }

  /** Row and column in the index after the first permutation. */
  lemma RowAndColumn(b: nat, row: nat, column: nat, i: nat)
    requires b in {4, 6, 8} && row < 9 * b && i == 9 * b * column + row
    ensures i % (b / 2) == row % (b / 2) && i / (b / 2) % 2 == row / (b / 2) % 2 && i / (9 * b) == column
  {
    var s := b / 2;
    DivMod.AddMultiple(row, 18 * column, s);
    DivMod.AddMultiple(row / s, 9 * column, 2);
    DivMod.Unique(i, 9 * b, column, row);
    assert i == row + 18 * column * s;
  }

  /** Rotating a symbol by whole subcarriers keeps the place inside the subcarrier. */
  lemma WholeSubcarriers(j: int, rot: int, s: nat, n: nat)
    requires 0 < s && 0 < n
    ensures 0 < n * (2 * s)
    ensures var r := (j - rot * (2 * s)) % (n * (2 * s)); r % s == j % s && r / s % 2 == j / s % 2
  {
    var b := 2 * s;
    DivMod.ProductPositive(n, b);
    var x := j - rot * b;
    var q := x / (n * b);
    DivMod.Split(x, n * b);
    var turns := -rot - q * n;
    TurnsOut(x % (n * b), j, rot, q, n, s);
    DivMod.AddMultiple(j, 2 * turns, s);
    DivMod.AddMultiple(j / s, turns, 2);
  }

  lemma TurnsOut(r: int, j: int, rot: int, q: int, n: int, s: int)
    requires j - rot * (2 * s) == q * (n * (2 * s)) + r
    ensures r == j + 2 * (-rot - q * n) * s
  {
    DivMod.Associate(q, n, 2 * s);
    DivMod.Distribute(-rot, q * n, 2 * s);
    DivMod.Associate(-rot - q * n, 2, s);
  }

  /** The place of a bit: its data subcarrier, the axis, and the significance on it.  With
      SubcarrierClosedForm this determines the whole interleaver. */
  lemma PositionClosedForm(c: Config, ss: nat, k: nat)
    requires c.Valid() && c.nBpscs >= 4 && ss < c.nSts && k < c.PerStream()
    ensures var s, row, column := c.nBpscs / 2, k / 26, k % 26;
      Position(c, ss, k) == c.nBpscs * Subcarrier(c, ss, k) + s * (row / s % 2) + (row - column) % s
  {
    hide Position;
    Significance(c, ss, k);
    PlaceInSubcarrier(Position(c, ss, k), c.nBpscs / 2);
  }

  lemma PlaceInSubcarrier(r: nat, s: nat)
    requires 0 < s
    ensures r == 2 * s * (r / (2 * s)) + s * (r / s % 2) + r % s
  {
    DivMod.QuotientOfQuotient(r, s, 2);
    DivMod.Split(r, s);
    assert s * 2 == 2 * s;
    var q := r / s;
    assert q == 2 * (q / 2) + q % 2;
    DivMod.Distribute(2 * (q / 2), q % 2, s);
  }

  /** Two consecutive bits of one row never get the same significance. */
  lemma NeighboursDiffer(c: Config, ss: nat, k: nat)
    requires c.Valid() && c.nBpscs >= 4 && ss < c.nSts && k + 1 < c.PerStream() && k % 26 != 25
    ensures Position(c, ss, k) % (c.nBpscs / 2) != Position(c, ss, k + 1) % (c.nBpscs / 2)
  {
    hide Position;
    Significance(c, ss, k);
    Significance(c, ss, k + 1);
    NextRow(k);
    OneApart(k / 26 - k % 26 - 1, c.nBpscs / 2);
  }

  lemma OneApart(x: int, s: nat)
    requires s >= 2
    ensures x % s != (x + 1) % s
  {
    DivMod.DifferenceOfResidues(x, x + 1, s);
    DivMod.Unique(1, s, 0, 1);
    DivMod.Unique(0, s, 0, 0);
  }

  // ---------------------------------------------------------------------------
  // The third permutation
  // ---------------------------------------------------------------------------

  /** The rotation of each stream: 58 data subcarriers at a time with two to four streams, 28
      at a time with more. */
  lemma RotationClosedForm(c: Config, ss: nat)
    requires c.Valid() && ss < c.nSts
    ensures SubcarrierRotation(c, ss) ==
      if c.nSts >= 5 then 28 * (if ss < 4 then 5 * ss % 8 else 7 - 5 * ss % 8)
      else 58 * (if ss == 1 then 2 else if ss == 2 then 1 else ss)
  {
  }

  lemma RotationsApart(c: Config, ss: nat, tt: nat)
    requires c.Valid() && ss < tt < c.nSts
    ensures var g := SubcarrierRotation(c, ss) - SubcarrierRotation(c, tt);
      && (28 <= g % 234 <= 206)
      && (tt == ss + 1 ==> 58 <= g % 234 <= 176)
  {
    RotationClosedForm(c, ss);
    RotationClosedForm(c, tt);
    assert ss == 0 || ss == 1 || ss == 2 || ss == 3 || ss == 4 || ss == 5 || ss == 6;
  }

  /** The same bit of two streams is carried at least 28 data subcarriers apart, and of two
      consecutive streams at least 58, counted cyclically over the 234. */
  lemma StreamsApart(c: Config, ss: nat, tt: nat, k: nat)
    requires c.Valid() && ss < tt < c.nSts && k < c.PerStream()
    ensures var d := (Subcarrier(c, tt, k) - Subcarrier(c, ss, k)) % 234;
      28 <= d <= 206 && (tt == ss + 1 ==> 58 <= d <= 176)
  {
    hide Subcarrier, SubcarrierRotation;
    SubcarrierClosedForm(c, ss, k);
    SubcarrierClosedForm(c, tt, k);
    RotationsApart(c, ss, tt);
    var x: int := 9 * (k % 26) + k / 26 / c.nBpscs;
    DivMod.DifferenceOfResidues(x - SubcarrierRotation(c, ss), x - SubcarrierRotation(c, tt), 234);
  }
}

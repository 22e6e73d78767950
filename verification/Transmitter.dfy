/**
 The parameters of the transmit chain, and the coded bits seen through the stream
 parser and the interleaver together.
 */
module Transmitter {
  import DivMod
  import I = Interleaver
  import P = StreamParser

  /** The modulation order N_BPSCS and the number of streams N_STS. */
  datatype Config = Config(nBpscs: nat, nSts: nat) {
    ghost predicate Valid() {
      nBpscs in {1, 2, 4, 6, 8} && 1 <= nSts <= 8
    }

    /** s, the coded bits per axis of the constellation. */
    function BitsPerAxis(): (s: nat)
      ensures 0 < s
    {
      if nBpscs / 2 > 1 then nBpscs / 2 else 1
    }

    function Interleaving(): I.Shape {
      I.Shape(26, 9 * nBpscs, BitsPerAxis())
    }

    /** N_CBPSS, the coded bits of one stream in one symbol. */
    function PerStream(): nat {
      234 * nBpscs
    }

    /** N_CBPS, the coded bits of all streams in one symbol. */
    function PerSymbol(): nat {
      nSts * PerStream()
    }
  }

  // The rows of the MCS table that the chain reads.
  const BITS_PER_SUBCARRIER: seq<nat> := [1, 2, 2, 4, 4, 6, 6, 6, 8, 8]
  const DATA_BITS: seq<nat> := [117, 234, 351, 468, 702, 936, 1053, 1170, 1404, 1560]
  const CODED_BITS: seq<nat> := [234, 468, 468, 936, 936, 1404, 1404, 1404, 1872, 1872]

  /** Every row of the MCS table meets the demands of the interleaver: N_CBPS / N_STS is
      N_COL * N_ROW, s divides N_ROW and N_BPSCS is a whole number of s-blocks. */
  lemma McsRowsFitInterleaver(mcs: nat, nSts: nat)
    requires mcs < 10 && 1 <= nSts <= 8
    ensures var c := Config(BITS_PER_SUBCARRIER[mcs], nSts);
            c.Valid() && c.PerSymbol() == nSts * CODED_BITS[mcs] && c.Interleaving().Valid()
            && c.nBpscs % c.BitsPerAxis() == 0
  {
    ConfigShape(Config(BITS_PER_SUBCARRIER[mcs], nSts));
  }

  /** RATE_TYPE, and the rate of the code that each of its numbers stands for. */
  const RATE_TYPE: seq<nat> := [0, 0, 1, 0, 1, 2, 1, 5, 1, 5]

  function RateOf(rateType: nat): (rate: (nat, nat)) {
    match rateType case 0 => (1, 2) case 1 => (3, 4) case 2 => (2, 3) case _ => (5, 6)
  }

  /** In every row the data bits of a symbol are the rate's share of its coded bits, 234 on
      each bit of a subcarrier, and the rows are ordered by their data bits. */
  lemma McsRowsFitRate(mcs: nat)
    requires mcs < 10
    ensures var rate := RateOf(RATE_TYPE[mcs]); DATA_BITS[mcs] * rate.1 == CODED_BITS[mcs] * rate.0
    ensures CODED_BITS[mcs] == 234 * BITS_PER_SUBCARRIER[mcs]
    ensures mcs < 9 ==> DATA_BITS[mcs] < DATA_BITS[mcs + 1]
  {
  }

  lemma ConfigShape(c: Config)
    requires c.Valid()
    ensures c.Interleaving().Valid()
    ensures c.PerStream() == c.Interleaving().Size() > 0
    ensures c.nBpscs % c.BitsPerAxis() == 0
  {
    var s := c.BitsPerAxis();
    assert c.nBpscs % s == 0;
    var m := c.nBpscs / s;
    DivMod.ExactFactor(c.nBpscs, s);
    DivMod.MultipleIsDivisible(9 * m, s);
  }

  // ---------------------------------------------------------------------------
  // Interleaving one symbol of one stream
  // ---------------------------------------------------------------------------

  const ROTATIONS: seq<nat> := [0, 5, 2, 7, 3, 6, 1, 4]

  /** The rotation of stream ss by the third permutation, in subcarriers. */
  function SubcarrierRotation(c: Config, ss: nat): nat
    requires c.Valid() && ss < c.nSts
  {
    if c.nSts == 1 then 0
    else if c.nSts >= 5 then ROTATIONS[ss] * 28
    else ((2 * ss) % 3 + 3 * (ss / 3)) * 58
  }

  /** The rotation of stream ss by the third permutation, in bits. */
  function Rotation(c: Config, ss: nat): nat
    requires c.Valid() && ss < c.nSts
  {
    SubcarrierRotation(c, ss) * c.nBpscs
  }

  lemma RotationIndex(c: Config, ss: nat)
    requires c.Valid() && ss < c.nSts
    ensures Rotation(c, ss) ==
            if c.nSts == 1 then 0
            else if c.nSts >= 5 then ROTATIONS[ss] * 28 * c.nBpscs
            else ((2 * ss) % 3 + 3 * (ss / 3)) * 58 * c.nBpscs
  {
  }

  /** Where bit k of stream ss stands within its symbol after interleaving. */
  function Position(c: Config, ss: nat, k: nat): (r: nat)
    requires c.Valid() && ss < c.nSts && k < c.PerStream()
    ensures r < c.PerStream()
  {
    ConfigShape(c);
    I.Permuted(c.Interleaving(), Rotation(c, ss), k)
  }

  /** Which bit of stream ss stands at position r of its symbol after interleaving. */
  function Origin(c: Config, ss: nat, r: nat): (k: nat)
    requires c.Valid() && ss < c.nSts && r < c.PerStream()
    ensures k < c.PerStream()
  {
    ConfigShape(c);
    I.PermutedInverse(c.Interleaving(), Rotation(c, ss), r)
  }

  lemma PositionSteps(c: Config, ss: nat, k: nat)
    requires c.Valid() && ss < c.nSts && k < c.PerStream()
    ensures var sh := c.Interleaving();
            sh.Valid() && sh.Size() == c.PerStream() &&
            Position(c, ss, k) == I.Rotate(sh.Size(), I.BlockRotate(sh, I.RowColumn(sh, k)), Rotation(c, ss))
  {
    ConfigShape(c);
  }

  lemma PositionRoundTrip(c: Config, ss: nat, k: nat)
    requires c.Valid() && ss < c.nSts && k < c.PerStream()
    ensures Origin(c, ss, Position(c, ss, k)) == k
    ensures Position(c, ss, Origin(c, ss, k)) == k
  {
    ConfigShape(c);
    I.PermutedRoundTrip(c.Interleaving(), Rotation(c, ss), k);
  }

  // ---------------------------------------------------------------------------
  // Coded bits and positions over all symbols
  // ---------------------------------------------------------------------------

  /** The coded bit that the stream parser sends to place k of stream ss. */
  function Parsed(c: Config, ss: nat, k: nat): nat {
    P.Parsed(c.BitsPerAxis(), c.nSts, ss, k)
  }

  lemma ParsedIndex(c: Config, ss: nat, k: nat)
    ensures var s := c.BitsPerAxis(); Parsed(c, ss, k) == ss * s + c.nSts * s * (k / s) + k % s
  {
  }

  /** N_CBPS counted in s-blocks. */
  lemma SymbolInBlocks(c: Config, sym: nat) returns (m: nat)
    requires c.Valid()
    ensures sym * c.PerStream() == m * c.BitsPerAxis()
    ensures sym * c.PerSymbol() == m * c.nSts * c.BitsPerAxis()
  {
    var s, b := c.BitsPerAxis(), c.PerStream() / c.BitsPerAxis();
    ConfigShape(c);
    assert c.PerStream() == b * s;
    m := sym * b;
    DivMod.Associate(sym, b, s);
    BlocksOfSymbol(sym, c.nSts, b, s);
  }

  lemma BlocksOfSymbol(sym: int, n: int, b: int, s: int)
    ensures sym * (n * (b * s)) == sym * b * n * s
  {
    DivMod.Associate(n, b, s);
    DivMod.Associate(sym, n * b, s);
    DivMod.Associate(sym, b, n);
  }

  lemma ParsedRange(c: Config, ss: nat, k: nat, sym: nat)
    requires c.Valid() && ss < c.nSts
    ensures k < sym * c.PerStream() <==> Parsed(c, ss, k) < sym * c.PerSymbol()
  {
    var m := SymbolInBlocks(c, sym);
    P.ParsedRange(c.BitsPerAxis(), c.nSts, ss, k, m);
  }

  /** The table of one symbol suffices: s divides the length of a stream's symbol, so
      the parser reads symbol sym at the same places, sym * N_CBPS later. */
  lemma OneSymbolSuffices(c: Config, ss: nat, k: nat, sym: nat)
    requires c.Valid()
    ensures Parsed(c, ss, sym * c.PerStream() + k) == Parsed(c, ss, k) + sym * c.PerSymbol()
  {
    var m := SymbolInBlocks(c, sym);
    P.ParsedShift(c.BitsPerAxis(), c.nSts, ss, k, m);
  }

  lemma ParsedWithinSymbol(c: Config, ss: nat, k: nat)
    requires c.Valid() && ss < c.nSts && k < c.PerStream()
    ensures Parsed(c, ss, k) < c.PerSymbol()
  {
    hide P.Parsed;
    ParsedRange(c, ss, k, 1);
  }

  /** The entry of the one-symbol table: the coded bit at position r of stream ss. */
  function TableEntry(c: Config, ss: nat, r: nat): (i: nat)
    requires c.Valid() && ss < c.nSts && r < c.PerStream()
    ensures i < c.PerSymbol()
  {
    ParsedWithinSymbol(c, ss, Origin(c, ss, r));
    Parsed(c, ss, Origin(c, ss, r))
  }

  /** Place o of symbol sym, counted over all symbols of a stream. */
  function PlaceInStream(c: Config, sym: nat, o: nat): (k: nat)
    ensures k == sym * c.PerStream() + o
  {
    DivMod.Scale(0, sym, c.PerStream());
    sym * c.PerStream() + o
  }

  /** The coded bit that ends up at position r of symbol sym of stream ss. */
  function CodedBit(c: Config, ss: nat, sym: nat, r: nat): nat
    requires c.Valid() && ss < c.nSts && r < c.PerStream()
  {
    Parsed(c, ss, PlaceInStream(c, sym, Origin(c, ss, r)))
  }

  /** CodedBit with symbol and position read off one index into the stream. */
  function CodedAt(c: Config, ss: nat, x: nat): nat
    requires c.Valid() && ss < c.nSts
  {
    DivMod.Split(x, c.PerStream());
    CodedBit(c, ss, x / c.PerStream(), x % c.PerStream())
  }

  lemma CodedAtSymbol(c: Config, ss: nat, sym: nat, r: nat)
    requires c.Valid() && ss < c.nSts && r < c.PerStream()
    ensures CodedAt(c, ss, PlaceInStream(c, sym, r)) == Parsed(c, ss, PlaceInStream(c, sym, Origin(c, ss, r)))
    ensures CodedAt(c, ss, PlaceInStream(c, sym, r)) == CodedBit(c, ss, sym, r)
  {
    hide Parsed, Origin;
    DivMod.Unique(PlaceInStream(c, sym, r), c.PerStream(), sym, r);
  }

  lemma TableEntryIsCodedAt(c: Config, ss: nat, r: nat)
    requires c.Valid() && ss < c.nSts && r < c.PerStream()
    ensures CodedAt(c, ss, r) == TableEntry(c, ss, r)
  {
    hide Parsed, Origin;
    CodedAtSymbol(c, ss, 0, r);
  }

  lemma NextSymbol(sym: nat, nSym: nat, n: nat)
    requires sym < nSym
    ensures 0 <= sym * n && (sym + 1) * n == sym * n + n && sym * n + n <= nSym * n
  {
    DivMod.Distribute(sym, 1, n);
    DivMod.Scale(sym + 1, nSym, n);
    DivMod.Scale(0, sym, n);
  }

  /** Stream, symbol and position where coded bit i ends up. */
  function Destination(c: Config, i: nat): (p: (nat, nat, nat))
    requires c.Valid()
    ensures p.0 < c.nSts && p.2 < c.PerStream()
  {
    var n := c.PerStream();
    var (ss, k) := P.ParsedInverse(c.BitsPerAxis(), c.nSts, i);
    DivMod.Split(k, n);
    (ss, k / n, Position(c, ss, k % n))
  }

  /** Parser and interleaver together are a bijection between the coded bits of any
      number of symbols and the (stream, symbol, position) triples. */
  lemma CodedBitOfDestination(c: Config, i: nat, nSym: nat)
    requires c.Valid()
    ensures var p := Destination(c, i); CodedBit(c, p.0, p.1, p.2) == i
    ensures i < nSym * c.PerSymbol() <==> Destination(c, i).1 < nSym
  {
    hide Position, Origin, P.Parsed, P.ParsedInverse;
    ConfigShape(c);
    var n := c.PerStream();
    var (ss, k) := P.ParsedInverse(c.BitsPerAxis(), c.nSts, i);
    P.InverseThenParsed(c.BitsPerAxis(), c.nSts, i);
    PositionRoundTrip(c, ss, k % n);
    DivMod.Split(k, n);
    ParsedRange(c, ss, k, nSym);
    P.BlockRange(k / n, k % n, nSym, n);
  }

  lemma DestinationOfCodedBit(c: Config, ss: nat, sym: nat, r: nat)
    requires c.Valid() && ss < c.nSts && r < c.PerStream()
    ensures Destination(c, CodedBit(c, ss, sym, r)) == (ss, sym, r)
  {
    hide Position, Origin, P.Parsed, P.ParsedInverse;
    ConfigShape(c);
    var n := c.PerStream();
    var o := Origin(c, ss, r);
    P.ParsedThenInverse(c.BitsPerAxis(), c.nSts, ss, sym * n + o);
    DivMod.Unique(sym * n + o, n, sym, o);
    PositionRoundTrip(c, ss, r);
  }

  lemma CodedBitInFrame(c: Config, ss: nat, sym: nat, r: nat, nSym: nat)
    requires c.Valid() && ss < c.nSts && r < c.PerStream() && sym < nSym
    ensures CodedBit(c, ss, sym, r) < nSym * c.PerSymbol()
  {
    hide CodedBit, Destination;
    DestinationOfCodedBit(c, ss, sym, r);
    CodedBitOfDestination(c, CodedBit(c, ss, sym, r), nSym);
  }

  /** The one-symbol table gives every symbol's bits, sym * N_CBPS further on. */
  lemma CodedBitFromTable(c: Config, ss: nat, sym: nat, r: nat)
    requires c.Valid() && ss < c.nSts && r < c.PerStream()
    ensures CodedBit(c, ss, sym, r) == TableEntry(c, ss, r) + sym * c.PerSymbol()
  {
    hide Parsed, Origin;
    OneSymbolSuffices(c, ss, Origin(c, ss, r), sym);
  }

  lemma TableEntryOfDestination(c: Config, i: nat)
    requires c.Valid() && i < c.PerSymbol()
    ensures var p := Destination(c, i); TableEntry(c, p.0, p.2) == i
  {
    hide Destination, CodedBit, TableEntry;
    var p := Destination(c, i);
    CodedBitOfDestination(c, i, 1);
    CodedBitFromTable(c, p.0, 0, p.2);
  }

  /** The two round trips as one statement over all symbols of a frame. */
  lemma InterleaverBijection(c: Config, nSym: nat)
    requires c.Valid()
    ensures forall i :: 0 <= i < nSym * c.PerSymbol() ==>
              var p := Destination(c, i); p.1 < nSym && CodedBit(c, p.0, p.1, p.2) == i
    ensures forall ss, sym, r :: 0 <= ss < c.nSts && 0 <= sym < nSym && 0 <= r < c.PerStream() ==>
              CodedBit(c, ss, sym, r) < nSym * c.PerSymbol() &&
              Destination(c, CodedBit(c, ss, sym, r)) == (ss, sym, r)
  {
    forall i | 0 <= i < nSym * c.PerSymbol()
      ensures var p := Destination(c, i); p.1 < nSym && CodedBit(c, p.0, p.1, p.2) == i
    {
      CodedBitOfDestination(c, i, nSym);
    }
    forall ss, sym, r | 0 <= ss < c.nSts && 0 <= sym < nSym && 0 <= r < c.PerStream()
      ensures CodedBit(c, ss, sym, r) < nSym * c.PerSymbol()
      ensures Destination(c, CodedBit(c, ss, sym, r)) == (ss, sym, r)
    {
      DestinationOfCodedBit(c, ss, sym, r);
      CodedBitOfDestination(c, CodedBit(c, ss, sym, r), nSym);
    }
  }

  // ---------------------------------------------------------------------------
  // Spreading
  // ---------------------------------------------------------------------------

  /** The data subcarrier, among 234, that carries bit k of stream ss. */
  function Subcarrier(c: Config, ss: nat, k: nat): (d: nat)
    requires c.Valid() && ss < c.nSts && k < c.PerStream()
    ensures d < 234
  {
    DivMod.QuotientBound(Position(c, ss, k), c.nBpscs, 234);
    Position(c, ss, k) / c.nBpscs
  }

  /** Two consecutive bits of a stream within one symbol are carried 9 or 10 data
      subcarriers apart, counted cyclically over the 234. */
  lemma Spreading(c: Config, ss: nat, k: nat)
    requires c.Valid() && ss < c.nSts && k + 1 < c.PerStream()
    ensures (Subcarrier(c, ss, k + 1) - Subcarrier(c, ss, k)) % 234 in {9, 10}
  {
    hide Subcarrier, SubcarrierRotation;
    SubcarrierClosedForm(c, ss, k);
    SubcarrierClosedForm(c, ss, k + 1);
    NextRow(k);
    var u, v := NextQuotient(k / 26, (k + 1) / 26, c.nBpscs);
    StepApart(k % 26, (k + 1) % 26, SubcarrierRotation(c, ss), u, v);
  }

  lemma NextRow(k: nat)
    ensures k % 26 < 25 ==> (k + 1) % 26 == k % 26 + 1 && (k + 1) / 26 == k / 26
    ensures k % 26 == 25 ==> (k + 1) % 26 == 0 && (k + 1) / 26 == k / 26 + 1
  {
  }

  lemma NextQuotient(q: nat, next: nat, b: nat) returns (u: nat, v: nat)
    requires 0 < b && (next == q || next == q + 1)
    ensures u == q / b && v == next / b && (v == u || (next == q + 1 && v == u + 1))
  {
    u, v := q / b, next / b;
    QuotientStep(q, b);
  }

  lemma StepApart(a: nat, b: nat, rot: int, u: nat, v: nat)
    requires (a < 25 && b == a + 1 && u == v) || (a == 25 && b == 0 && (v == u || v == u + 1))
    ensures ((9 * b + v - rot) % 234 - (9 * a + u - rot) % 234) % 234 in {9, 10}
  {
    var x, y := 9 * a + u - rot, 9 * b + v - rot;
    DivMod.DifferenceOfResidues(x, y, 234);
    assert y - x == 9 || y - x == -225 || y - x == -224;
  }

  lemma QuotientStep(q: nat, b: nat)
    requires 0 < b
    ensures (q + 1) / b == q / b || (q + 1) / b == q / b + 1
  {
    DivMod.Split(q, b);
    if q % b < b - 1 {
      DivMod.Unique(q + 1, b, q / b, q % b + 1);
    } else {
      DivMod.Distribute(q / b, 1, b);
      DivMod.Unique(q + 1, b, q / b + 1, 0);
    }
  }

  /** The second permutation stays inside a subcarrier and the third rotates whole
      subcarriers, so the subcarrier follows from the first permutation alone. */
  lemma SubcarrierClosedForm(c: Config, ss: nat, k: nat)
    requires c.Valid() && ss < c.nSts && k < c.PerStream()
    ensures Subcarrier(c, ss, k) == (9 * (k % 26) + (k / 26) / c.nBpscs - SubcarrierRotation(c, ss)) % 234
  {
    hide SubcarrierRotation, I.BlockRotate;
    ConfigShape(c);
    var b, sh, rot := c.nBpscs, c.Interleaving(), SubcarrierRotation(c, ss);
    var i := I.RowColumn(sh, k);
    assert i == (k / 26) + (9 * (k % 26)) * b;
    DivMod.AddMultiple(k / 26, 9 * (k % 26), b);
    SubcarrierKept(sh, i, b);
    RotateWhole(I.BlockRotate(sh, i), rot, b, 234);
  }

  lemma SubcarrierKept(sh: I.Shape, i: nat, b: nat)
    requires sh.Valid() && i < sh.Size() && 0 < b && b % sh.s == 0
    ensures I.BlockRotate(sh, i) / b == i / b
  {
    hide I.BlockRotate;
    I.BlockRotateBack(sh, i);
    DivMod.SameCoarserBlock(I.BlockRotate(sh, i), i, sh.s, b);
  }

  /** Rotating by whole blocks rotates the block numbers. */
  lemma RotateWhole(j: nat, rot: nat, b: nat, n: nat)
    requires 0 < b && 0 < n
    ensures 0 < n * b
    ensures ((j - rot * b) % (n * b)) / b == (j / b - rot) % n
  {
    DivMod.ProductPositive(n, b);
    var d, t := j / b - rot, j % b;
    DivMod.Split(j, b);
    DivMod.Distribute(j / b, rot, b);
    ResidueOfBlocks(j - rot * b, d, t, b, n);
  }

  lemma ResidueOfBlocks(x: int, d: int, t: int, b: int, n: int)
    requires 0 < b && 0 < n && 0 < n * b
    requires x == d * b + t && 0 <= t < b
    ensures (x % (n * b)) / b == d % n
  {
    var q, e := d / n, d % n;
    DivMod.Split(d, n);
    DivMod.Recombine(q, n, e, b, t);
    P.BlockRange(e, t, n, b);
    DivMod.Scale(0, e, b);
    var m := n * b;
    assert b * n == m;
    DivMod.Unique(x, m, q, e * b + t);
    DivMod.Unique(e * b + t, b, e, t);
  }
}

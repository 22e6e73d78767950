/** The two forms of the cyclic shift on the maps that the transmit chain really makes. */
module FrameShift {
  import opened ComplexNumbers
  import opened FixedPoint
  import C = Constellation
  import M = SubcarrierMap
  import S = Subcarriers
  import B = Buffers
  import P = FramePaths
  import DivMod
  import opened CyclicShift

  lemma PointsAreModerate(re: nat, im: nat)
    requires re < 8 && im < 8
    ensures -8848 <= C.Point(re, im).re <= 8848 && -8848 <= C.Point(re, im).im <= 8848
  {
    hide C.Point;
    C.PointLevels(re, im);
  }

  /** Every point of every frame's map, with a shift factor of at most one, is within the
      bounds of the error theorem: no 16-bit value wraps, and the vector form of the shift is
      -3 to 4 away from the scalar form. */
  lemma MapShiftsAreNear(coded: seq<int>, nSts: nat, nSym: nat, ss: nat, sym: nat, j: nat, factor: Complex32)
    requires M.Coded(coded, nSts, nSym) && ss < nSts && sym < nSym && j < S.SUBCARRIERS
    requires -8192 <= factor.re <= 8192 && -8192 <= factor.im <= 8192
    ensures var p := M.DirectPoint(coded, nSts, nSym, ss, sym, j);
      Moderate(p, factor) && NothingWraps(p, factor) && Near(LaneProduct(p, factor), Product(p, factor), -3, 4)
  {
    hide LaneProduct, Product, NothingWraps, M.DirectBit, C.Point, S.SubcarrierSlot;
    M.DataSlotBound(j);
    if S.SubcarrierSlot(j).Data? {
      DataIsModerate(coded, nSts, nSym, ss, sym, S.SubcarrierSlot(j).n);
    }
    LaneError(M.DirectPoint(coded, nSts, nSym, ss, sym, j), factor);
  }

  lemma DataIsModerate(coded: seq<int>, nSts: nat, nSym: nat, ss: nat, sym: nat, n: nat)
    requires M.Coded(coded, nSts, nSym) && ss < nSts && sym < nSym && n < 234
    ensures var p := M.DirectData(coded, nSts, nSym, ss, sym, n); -8848 <= p.re <= 8848 && -8848 <= p.im <= 8848
  {
    hide M.DirectBit, C.Point;
    var r := 6 * n;
    PointsAreModerate(
      C.Value3(M.DirectBit(coded, nSts, nSym, ss, sym, r), M.DirectBit(coded, nSts, nSym, ss, sym, r + 1),
               M.DirectBit(coded, nSts, nSym, ss, sym, r + 2)),
      C.Value3(M.DirectBit(coded, nSts, nSym, ss, sym, r + 3), M.DirectBit(coded, nSts, nSym, ss, sym, r + 4),
               M.DirectBit(coded, nSts, nSym, ss, sym, r + 5)));
  }

  /** Shift factors of at most one. */
  ghost predicate UnitFactors(factors: seq<seq<Complex32>>) {
    forall i, k :: 0 <= i < |factors| && 0 <= k < |factors[i]| ==>
      -8192 <= factors[i][k].re <= 8192 && -8192 <= factors[i][k].im <= 8192
  }

  method NewStreams(count: nat, length: nat) returns (streams: seq<array<Complex32>>)
    ensures |streams| == count
    ensures forall i :: 0 <= i < count ==> fresh(streams[i]) && streams[i].Length == length
    ensures forall i, j :: 0 <= i < j < count ==> streams[i] != streams[j]
  {
    streams := [];
    for i := 0 to count
      invariant |streams| == i
      invariant forall u :: 0 <= u < i ==> fresh(streams[u]) && streams[u].Length == length
      invariant forall u, v :: 0 <= u < v < i ==> streams[u] != streams[v]
    {
      var stream := new Complex32[length];
      streams := streams + [stream];
    }
  }

  /** One sample of the rows of the direct map is moderate for any unit factor. */
  lemma RowIsModerate(coded: seq<int>, nSts: nat, nSym: nat, ss: nat, sym: nat, k: nat, p: Complex32, factor: Complex32)
    requires M.Coded(coded, nSts, nSym) && ss < nSts && sym < nSym && k < SUBCARRIERS
    requires var x := sym * SUBCARRIERS + k;
      p == M.DirectPoint(coded, nSts, nSym, ss, x / SUBCARRIERS, x % SUBCARRIERS)
    requires -8192 <= factor.re <= 8192 && -8192 <= factor.im <= 8192
    ensures Moderate(p, factor)
  {
    hide M.DirectPoint, Moderate, NothingWraps, Near;
    DivMod.Unique(sym * SUBCARRIERS + k, SUBCARRIERS, sym, k);
    MapShiftsAreNear(coded, nSts, nSym, ss, sym, k, factor);
  }

  /** From the coded bits to the shifted samples, for every frame of at most two symbols and
      up to four streams: the optimised program (table lookup into a flat map, lane products)
      and the simple one (interleaving, modulation and scalar products) leave samples that are
      -3 to 4 apart in each component. */
  method ShiftBothPaths(output: array<int>, nSts: nat, nSym: nat, table: LazyTable)
    returns (lanes: array<Complex32>, scalar: seq<array<Complex32>>)
    requires M.Coded(output[..], nSts, nSym) && nSts <= 4 && nSym <= 2
    requires table.Valid() && nSts <= |table.factors| && UnitFactors(table.factors)
    modifies table
    ensures lanes.Length == nSts * (nSym * SUBCARRIERS)
    ensures |scalar| == nSts && forall i :: 0 <= i < nSts ==> scalar[i].Length == nSym * SUBCARRIERS
    ensures forall i, n, k :: 0 <= i < nSts && 0 <= n < nSym && 0 <= k < SUBCARRIERS ==>
      SampleNear(lanes, scalar[i], nSym, i, n, k)
  {
    hide M.DirectPoint, M.Coded, NearAt, Near, UnitFactors, FlatStart;
    assert 1 <= nSts <= 4 by { CodedStreams(output[..], nSts, nSym); }
    ghost var coded := output[..];
    var flat, carriers := P.RunBothPaths(output, nSts, nSym);
    var width := nSym * SUBCARRIERS;
    var rows := seq(nSts, i requires 0 <= i < nSts reads carriers =>
      seq(width, x requires 0 <= x < width reads carriers => carriers[i, x]));
    lanes := new Complex32[nSts * width];
    scalar := NewStreams(nSts, width);
    MapIsFlattened(flat, carriers, rows, nSts, nSym);
    CompareFlat(flat[..], rows, nSym, lanes, scalar, table);
    forall i, n, k | 0 <= i < nSts && 0 <= n < nSym && 0 <= k < SUBCARRIERS
      ensures SampleNear(lanes, scalar[i], nSym, i, n, k)
    {
      var x := n * SUBCARRIERS + k;
      assert NearAt(lanes, FlatStart(nSym, i, n), scalar[i], rows[i], table.factors[i], n, k);
      assert rows[i][x] == carriers[i, x];
      FactorIsUnit(table.factors, i, k);
      RowIsModerate(coded, nSts, nSym, i, n, k, rows[i][x], table.factors[i][k]);
      NearSample(lanes, scalar[i], rows[i], table.factors[i], nSym, i, n, k);
    }
  }

  lemma CodedStreams(coded: seq<int>, nSts: nat, nSym: nat)
    requires M.Coded(coded, nSts, nSym)
    ensures nSts >= 1
  {
  }

  lemma FactorIsUnit(factors: seq<seq<Complex32>>, i: nat, k: nat)
    requires UnitFactors(factors) && i < |factors| && k < |factors[i]|
    ensures -8192 <= factors[i][k].re <= 8192 && -8192 <= factors[i][k].im <= 8192
  {
  }

  /** The sample of subcarrier k of symbol n of stream i in both programs. */
  ghost predicate SampleNear(lanes: array<Complex32>, scalar: array<Complex32>, nSym: nat, i: nat, n: nat, k: nat)
    requires scalar.Length == nSym * SUBCARRIERS && n < nSym && k < SUBCARRIERS
    reads lanes, scalar
  {
    && FlatStart(nSym, i, n) + k < lanes.Length
    && Near(lanes[FlatStart(nSym, i, n) + k], scalar[n * SUBCARRIERS + k], -3, 4)
  }

  lemma NearSample(lanes: array<Complex32>, scalar: array<Complex32>, samples: seq<Complex32>, row: seq<Complex32>,
                   nSym: nat, i: nat, n: nat, k: nat)
    requires scalar.Length == |samples| == nSym * SUBCARRIERS && |row| == SUBCARRIERS && n < nSym && k < SUBCARRIERS
    requires FlatStart(nSym, i, n) + SUBCARRIERS <= lanes.Length
    requires NearAt(lanes, FlatStart(nSym, i, n), scalar, samples, row, n, k)
    requires Moderate(samples[n * SUBCARRIERS + k], row[k])
    ensures SampleNear(lanes, scalar, nSym, i, n, k)
  {
    hide Near, Moderate, FlatStart;
  }

  /** The flat map of the table path is the rows of the direct map, one after the other. */
  lemma MapIsFlattened(
    flat: array<Complex32>, carriers: array2<Complex32>, rows: seq<seq<Complex32>>, nSts: nat, nSym: nat)
    requires flat.Length == nSts * (S.SUBCARRIERS * nSym)
    requires carriers.Length0 == nSts == |rows| && carriers.Length1 == S.SUBCARRIERS * nSym
    requires forall i :: 0 <= i < nSts ==> |rows[i]| == nSym * SUBCARRIERS && rows[i] == B.Rows(carriers)[i]
    requires forall i :: 0 <= i < nSts ==>
      0 <= i * (S.SUBCARRIERS * nSym) <= flat.Length - S.SUBCARRIERS * nSym &&
      flat[i * (S.SUBCARRIERS * nSym)..i * (S.SUBCARRIERS * nSym) + S.SUBCARRIERS * nSym] == B.Rows(carriers)[i]
    ensures Flattened(flat[..], rows, nSym)
  {
    var width := nSym * SUBCARRIERS;
    assert width == S.SUBCARRIERS * nSym;
    forall i, n, k | 0 <= i < nSts && 0 <= n < nSym && 0 <= k < SUBCARRIERS
      ensures SameSample(flat[..], rows[i], nSym, i, n, k)
    {
      var base, x := i * width, n * SUBCARRIERS + k;
      assert x < width;
      assert flat[base..base + width][x] == rows[i][x];
    }
  }
}

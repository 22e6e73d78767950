/** The cyclic shift of Data_CSD.c: every sample times the entry of its subcarrier. */
module CyclicShift {
  import opened ComplexNumbers
  import opened FixedPoint
  import opened VectorProducts
  import B = Buffers
  import DivMod

  const SUBCARRIERS: nat := 256

  /** The table of shift factors, filled at the first use.  What the initialisation computes
      from sines and cosines is a parameter here. */
  class LazyTable {
    const factors: seq<seq<Complex32>>
    var ready: bool
    var rows: seq<seq<Complex32>>

    ghost predicate Valid()
      reads this
    {
      && (forall i :: 0 <= i < |factors| ==> |factors[i]| == SUBCARRIERS)
      && (ready ==> rows == factors)
    }

    constructor (factors: seq<seq<Complex32>>)
      requires forall i :: 0 <= i < |factors| ==> |factors[i]| == SUBCARRIERS
      ensures Valid() && !ready && this.factors == factors
    {
      this.factors := factors;
      ready := false;
      rows := [];
    }

    method EnsureReady()
      requires Valid()
      modifies this
      ensures Valid() && ready && rows == factors
    {
      if !ready {
        rows := factors;
        ready := true;
      }
    }
  }

  // ---------------------------------------------------------------------------
  // One symbol of one stream
  // ---------------------------------------------------------------------------

  /** The 256 samples from place `at` are lane products. */
  ghost predicate LaneShifted(csd: seq<Complex32>, samples: seq<Complex32>, row: seq<Complex32>, at: nat)
    requires |row| == SUBCARRIERS && at + SUBCARRIERS <= |csd| && at + SUBCARRIERS <= |samples|
  {
    forall k :: 0 <= k < SUBCARRIERS ==> csd[at + k] == LaneProduct(samples[at + k], row[k])
  }

  /** The 256 samples from place `at` are scalar products. */
  ghost predicate ScalarShifted(csd: seq<Complex32>, samples: seq<Complex32>, row: seq<Complex32>, at: nat)
    requires |row| == SUBCARRIERS && at + SUBCARRIERS <= |csd| && at + SUBCARRIERS <= |samples|
  {
    forall k :: 0 <= k < SUBCARRIERS ==> csd[at + k] == Product(samples[at + k], row[k])
  }

  method ShiftSymbolLanes(samples: seq<Complex32>, row: seq<Complex32>, csd: array<Complex32>, at: nat)
    requires |row| == SUBCARRIERS && at + SUBCARRIERS <= csd.Length && at + SUBCARRIERS <= |samples|
    modifies csd
    ensures LaneShifted(csd[..], samples, row, at)
    ensures B.Outside(csd[..], old(csd[..]), at, at + SUBCARRIERS)
  {
    hide LaneProduct;
    for j := 0 to 16
      invariant forall k :: 0 <= k < j * 16 ==> csd[at + k] == LaneProduct(samples[at + k], row[k])
      invariant B.Outside(csd[..], old(csd[..]), at, at + SUBCARRIERS)
    {
      var from := at + j * 16;
      ghost var before := csd[..];
      MultiplyVector(samples[from..from + 16], row[j * 16..j * 16 + 16], csd, from);
      forall k | 0 <= k < (j + 1) * 16
        ensures csd[at + k] == LaneProduct(samples[at + k], row[k])
      {
        if k < j * 16 {
          assert csd[at + k] == before[at + k];
        } else {
          assert csd[at + k] == csd[from..from + 16][k - j * 16];
        }
      }
    }
  }

  // ---------------------------------------------------------------------------
  // All symbols of one stream
  // ---------------------------------------------------------------------------

  /** The two inner loops of the lane form, on the symbols from place `base` on. */
  method ShiftStreamLanes(samples: seq<Complex32>, row: seq<Complex32>, csd: array<Complex32>, base: nat, nSym: nat)
    requires |row| == SUBCARRIERS
    requires base + nSym * SUBCARRIERS <= csd.Length && base + nSym * SUBCARRIERS <= |samples|
    modifies csd
    ensures forall n :: 0 <= n < nSym ==> LaneShifted(csd[..], samples, row, base + n * SUBCARRIERS)
    ensures B.Outside(csd[..], old(csd[..]), base, base + nSym * SUBCARRIERS)
  {
    hide LaneProduct;
    for n := 0 to nSym
      invariant forall m :: 0 <= m < n ==> LaneShifted(csd[..], samples, row, base + m * SUBCARRIERS)
      invariant B.Outside(csd[..], old(csd[..]), base, base + nSym * SUBCARRIERS)
    {
      ghost var before := csd[..];
      ShiftSymbolLanes(samples, row, csd, base + n * SUBCARRIERS);
      forall m | 0 <= m < n
        ensures LaneShifted(csd[..], samples, row, base + m * SUBCARRIERS)
      {
        assert LaneShifted(before, samples, row, base + m * SUBCARRIERS);
      }
    }
  }

  /** The two inner loops of the scalar form. */
  method ShiftStreamScalar(samples: seq<Complex32>, row: seq<Complex32>, csd: array<Complex32>, nSym: nat)
    requires |row| == SUBCARRIERS
    requires nSym * SUBCARRIERS <= csd.Length && nSym * SUBCARRIERS <= |samples|
    modifies csd
    ensures forall n :: 0 <= n < nSym ==> ScalarShifted(csd[..], samples, row, n * SUBCARRIERS)
    ensures B.Outside(csd[..], old(csd[..]), 0, nSym * SUBCARRIERS)
  {
    hide Product;
    for n := 0 to nSym
      invariant forall m :: 0 <= m < n ==> ScalarShifted(csd[..], samples, row, m * SUBCARRIERS)
      invariant B.Outside(csd[..], old(csd[..]), 0, nSym * SUBCARRIERS)
    {
      ghost var before := csd[..];
      for j := 0 to SUBCARRIERS
        invariant forall k :: 0 <= k < j ==> csd[n * SUBCARRIERS + k] == Product(samples[n * SUBCARRIERS + k], row[k])
        invariant B.Outside(csd[..], before, n * SUBCARRIERS, (n + 1) * SUBCARRIERS)
      {
        csd[j + n * SUBCARRIERS] := Product(samples[j + n * SUBCARRIERS], row[j]);
      }
      forall m | 0 <= m < n
        ensures ScalarShifted(csd[..], samples, row, m * SUBCARRIERS)
      {
        assert ScalarShifted(before, samples, row, m * SUBCARRIERS);
      }
    }
  }

  // ---------------------------------------------------------------------------
  // All streams
  // ---------------------------------------------------------------------------

  /** One buffer for each stream, all different. */
  ghost predicate Streams(csd: seq<array<Complex32>>, samples: seq<seq<Complex32>>, nSym: nat) {
    && |csd| == |samples|
    && (forall i :: 0 <= i < |csd| ==> csd[i].Length == nSym * SUBCARRIERS == |samples[i]|)
    && (forall i, j :: 0 <= i < j < |csd| ==> csd[i] != csd[j])
  }

  /** Stream i has been shifted by lane products. */
  ghost predicate LaneStream(csd: array<Complex32>, samples: seq<Complex32>, row: seq<Complex32>, nSym: nat)
    requires csd.Length == |samples| == nSym * SUBCARRIERS && |row| == SUBCARRIERS
    reads csd
  {
    forall n :: 0 <= n < nSym ==> LaneShifted(csd[..], samples, row, n * SUBCARRIERS)
  }

  ghost predicate ScalarStream(csd: array<Complex32>, samples: seq<Complex32>, row: seq<Complex32>, nSym: nat)
    requires csd.Length == |samples| == nSym * SUBCARRIERS && |row| == SUBCARRIERS
    reads csd
  {
    forall n :: 0 <= n < nSym ==> ScalarShifted(csd[..], samples, row, n * SUBCARRIERS)
  }

  /** Data_CSD with AVX2. */
  method DataCsdLanes(samples: seq<seq<Complex32>>, nSym: nat, csd: seq<array<Complex32>>, table: LazyTable)
    requires table.Valid() && |csd| <= |table.factors| && Streams(csd, samples, nSym)
    modifies table, set i | 0 <= i < |csd| :: csd[i]
    ensures table.Valid() && table.ready
    ensures forall i :: 0 <= i < |csd| ==> LaneStream(csd[i], samples[i], table.factors[i], nSym)
  {
    hide LaneShifted;
    table.EnsureReady();
    for i := 0 to |csd|
      invariant table.Valid() && table.ready
      invariant forall u :: 0 <= u < i ==> LaneStream(csd[u], samples[u], table.factors[u], nSym)
    {
      ShiftStreamLanes(samples[i], table.rows[i], csd[i], 0, nSym);
      assert LaneStream(csd[i], samples[i], table.factors[i], nSym);
    }
  }

  /** Data_CSD without AVX2. */
  method DataCsdScalar(
    samples: seq<seq<Complex32>>, nSym: nat, csd: seq<array<Complex32>>, factors: seq<seq<Complex32>>)
    requires |csd| <= |factors| && Streams(csd, samples, nSym)
    requires forall i :: 0 <= i < |factors| ==> |factors[i]| == SUBCARRIERS
    modifies set i | 0 <= i < |csd| :: csd[i]
    ensures forall i :: 0 <= i < |csd| ==> ScalarStream(csd[i], samples[i], factors[i], nSym)
  {
    for i := 0 to |csd|
      invariant forall u :: 0 <= u < i ==> ScalarStream(csd[u], samples[u], factors[u], nSym)
    {
      ShiftStreamScalar(samples[i], factors[i], csd[i], nSym);
      assert ScalarStream(csd[i], samples[i], factors[i], nSym);
    }
  }

  /** __Data_CSD_aux: stream tx of a flat buffer; the other streams stay as they are. */
  method DataCsdFlat(samples: seq<Complex32>, nSym: nat, csd: array<Complex32>, tx: nat, table: LazyTable)
    requires table.Valid() && tx < |table.factors|
    requires (tx + 1) * (nSym * SUBCARRIERS) <= csd.Length == |samples|
    modifies table, csd
    ensures table.Valid() && table.ready
    ensures 0 <= tx * (nSym * SUBCARRIERS)
    ensures forall n :: 0 <= n < nSym ==>
      LaneShifted(csd[..], samples, table.factors[tx], tx * (nSym * SUBCARRIERS) + n * SUBCARRIERS)
    ensures B.Outside(csd[..], old(csd[..]), tx * (nSym * SUBCARRIERS), (tx + 1) * (nSym * SUBCARRIERS))
  {
    table.EnsureReady();
    var length := nSym * SUBCARRIERS;
    assert (tx + 1) * length == tx * length + length && 0 <= tx * length;
    ShiftStreamLanes(samples, table.rows[tx], csd, tx * length, nSym);
  }

  /** Where symbol n of stream tx starts in a flat buffer. */
  function FlatStart(nSym: nat, tx: nat, n: nat): (at: nat) {
    tx * (nSym * SUBCARRIERS) + n * SUBCARRIERS
  }

  lemma FlatBounds(nSym: nat, nSts: nat, tx: nat, n: nat)
    requires tx < nSts && n < nSym
    ensures tx * (nSym * SUBCARRIERS) <= FlatStart(nSym, tx, n)
    ensures FlatStart(nSym, tx, n) + SUBCARRIERS <= (tx + 1) * (nSym * SUBCARRIERS) <= nSts * (nSym * SUBCARRIERS)
  {
    var length := nSym * SUBCARRIERS;
    DivMod.Distribute(tx, 1, length);
    DivMod.Scale(tx + 1, nSts, length);
  }

  /** Symbol n of stream tx of a flat buffer has been shifted by lane products. */
  ghost predicate FlatShifted(
    csd: seq<Complex32>, samples: seq<Complex32>, row: seq<Complex32>, nSym: nat, tx: nat, n: nat)
    requires |row| == SUBCARRIERS && |csd| == |samples|
  {
    && FlatStart(nSym, tx, n) + SUBCARRIERS <= |csd|
    && LaneShifted(csd, samples, row, FlatStart(nSym, tx, n))
  }

  /** The loop over all streams around __Data_CSD_aux. */
  method DataCsdFlatAll(samples: seq<Complex32>, nSym: nat, nSts: nat, csd: array<Complex32>, table: LazyTable)
    requires table.Valid() && nSts <= |table.factors|
    requires csd.Length == |samples| == nSts * (nSym * SUBCARRIERS)
    modifies table, csd
    ensures table.Valid() && table.ready
    ensures forall tx, n :: 0 <= tx < nSts && 0 <= n < nSym ==>
      FlatShifted(csd[..], samples, table.factors[tx], nSym, tx, n)
  {
    hide LaneShifted;
    if nSts == 0 {
      table.EnsureReady();
    }
    for i := 0 to nSts
      invariant table.Valid() && (i > 0 || nSts == 0 ==> table.ready)
      invariant forall tx, n :: 0 <= tx < i && 0 <= n < nSym ==>
        FlatShifted(csd[..], samples, table.factors[tx], nSym, tx, n)
    {
      ghost var before := csd[..];
      DivMod.Scale(i + 1, nSts, nSym * SUBCARRIERS);
      DataCsdFlat(samples, nSym, csd, i, table);
      forall tx, n | 0 <= tx <= i && 0 <= n < nSym
        ensures FlatShifted(csd[..], samples, table.factors[tx], nSym, tx, n)
      {
        FlatBounds(nSym, nSts, tx, n);
        if tx < i {
          DivMod.Scale(tx + 1, i, nSym * SUBCARRIERS);
          assert FlatShifted(before, samples, table.factors[tx], nSym, tx, n);
          SymbolKept(before, csd[..], samples, table.factors[tx], FlatStart(nSym, tx, n));
        }
      }
    }
  }

  lemma SymbolKept(before: seq<Complex32>, now: seq<Complex32>, samples: seq<Complex32>, row: seq<Complex32>, at: nat)
    requires |row| == SUBCARRIERS && |now| == |before| && at + SUBCARRIERS <= |now| && at + SUBCARRIERS <= |samples|
    requires LaneShifted(before, samples, row, at)
    requires forall x :: at <= x < at + SUBCARRIERS ==> now[x] == before[x]
    ensures LaneShifted(now, samples, row, at)
  {
    hide LaneProduct;
  }

  // ---------------------------------------------------------------------------
  // The distance between the forms
  // ---------------------------------------------------------------------------

  /** One sample of a symbol in both forms, wherever the symbol stands in the two buffers: at
      most -3 to 4 apart in each component. */
  lemma FormsAreNear(
    lanes: seq<Complex32>, flat: seq<Complex32>, at: nat,
    scalar: seq<Complex32>, samples: seq<Complex32>, bt: nat, row: seq<Complex32>, k: nat)
    requires |row| == SUBCARRIERS && k < SUBCARRIERS
    requires at + SUBCARRIERS <= |lanes| && at + SUBCARRIERS <= |flat| && LaneShifted(lanes, flat, row, at)
    requires bt + SUBCARRIERS <= |scalar| && bt + SUBCARRIERS <= |samples| && ScalarShifted(scalar, samples, row, bt)
    requires flat[at + k] == samples[bt + k] && Moderate(samples[bt + k], row[k])
    ensures Near(lanes[at + k], scalar[bt + k], -3, 4)
  {
    hide LaneProduct, Product, Moderate, Near, NothingWraps;
    LaneError(samples[bt + k], row[k]);
  }

  /** Sample k of symbol n in both forms, from place `at` of the lane form's buffer: near, if
      nothing can wrap. */
  ghost predicate NearAt(
    lanes: array<Complex32>, at: nat, scalar: array<Complex32>, samples: seq<Complex32>,
    row: seq<Complex32>, n: nat, k: nat)
    requires scalar.Length == |samples| && |row| == SUBCARRIERS
    requires (n + 1) * SUBCARRIERS <= |samples| && k < SUBCARRIERS && at + SUBCARRIERS <= lanes.Length
    reads lanes, scalar
  {
    var x := n * SUBCARRIERS + k;
    Moderate(samples[x], row[k]) ==> Near(lanes[at + k], scalar[x], -3, 4)
  }

  /** Both per-stream forms of Data_CSD on the same frame. */
  method CompareForms(
    samples: seq<seq<Complex32>>, nSym: nat, lanes: seq<array<Complex32>>, scalar: seq<array<Complex32>>,
    table: LazyTable)
    requires table.Valid() && |lanes| == |scalar| <= |table.factors|
    requires Streams(lanes, samples, nSym) && Streams(scalar, samples, nSym)
    requires forall i, j :: 0 <= i < |lanes| && 0 <= j < |scalar| ==> lanes[i] != scalar[j]
    modifies table, set i | 0 <= i < |lanes| :: lanes[i], set i | 0 <= i < |scalar| :: scalar[i]
    ensures forall i, n, k :: 0 <= i < |lanes| && 0 <= n < nSym && 0 <= k < SUBCARRIERS
              ==> NearAt(lanes[i], n * SUBCARRIERS, scalar[i], samples[i], table.factors[i], n, k)
  {
    hide LaneShifted, ScalarShifted, Near, Moderate;
    DataCsdLanes(samples, nSym, lanes, table);
    DataCsdScalar(samples, nSym, scalar, table.factors);
    forall i, n, k | 0 <= i < |lanes| && 0 <= n < nSym && 0 <= k < SUBCARRIERS
      ensures NearAt(lanes[i], n * SUBCARRIERS, scalar[i], samples[i], table.factors[i], n, k)
    {
      assert LaneStream(lanes[i], samples[i], table.factors[i], nSym);
      assert ScalarStream(scalar[i], samples[i], table.factors[i], nSym);
      var at := n * SUBCARRIERS;
      if Moderate(samples[i][at + k], table.factors[i][k]) {
        FormsAreNear(lanes[i][..], samples[i], at, scalar[i][..], samples[i], at, table.factors[i], k);
      }
    }
  }

  /** The flat buffer holds the streams one after the other. */
  ghost predicate Flattened(flat: seq<Complex32>, samples: seq<seq<Complex32>>, nSym: nat) {
    && |flat| == |samples| * (nSym * SUBCARRIERS)
    && (forall i :: 0 <= i < |samples| ==> |samples[i]| == nSym * SUBCARRIERS)
    && forall i, n, k :: 0 <= i < |samples| && 0 <= n < nSym && 0 <= k < SUBCARRIERS ==>
         SameSample(flat, samples[i], nSym, i, n, k)
  }

  ghost predicate SameSample(flat: seq<Complex32>, samples: seq<Complex32>, nSym: nat, i: nat, n: nat, k: nat)
    requires |samples| == nSym * SUBCARRIERS && n < nSym && k < SUBCARRIERS
  {
    && FlatStart(nSym, i, n) + k < |flat|
    && flat[FlatStart(nSym, i, n) + k] == samples[n * SUBCARRIERS + k]
  }

  /** The flat lane form over all streams and the scalar form on the same frame: every sample
      of every stream and symbol is -3 to 4 apart. */
  method CompareFlat(
    flat: seq<Complex32>, samples: seq<seq<Complex32>>, nSym: nat,
    lanes: array<Complex32>, scalar: seq<array<Complex32>>, table: LazyTable)
    requires table.Valid() && |samples| <= |table.factors|
    requires Flattened(flat, samples, nSym) && lanes.Length == |flat|
    requires Streams(scalar, samples, nSym) && forall j :: 0 <= j < |scalar| ==> lanes != scalar[j]
    modifies table, lanes, set i | 0 <= i < |scalar| :: scalar[i]
    ensures forall i, n :: 0 <= i < |samples| && 0 <= n < nSym ==> FlatStart(nSym, i, n) + SUBCARRIERS <= lanes.Length
    ensures forall i, n, k :: 0 <= i < |samples| && 0 <= n < nSym && 0 <= k < SUBCARRIERS
              ==> NearAt(lanes, FlatStart(nSym, i, n), scalar[i], samples[i], table.factors[i], n, k)
  {
    hide LaneShifted, ScalarShifted, Near, Moderate, FlatStart;
    DataCsdFlatAll(flat, nSym, |samples|, lanes, table);
    ghost var shifted := lanes[..];
    DataCsdScalar(samples, nSym, scalar, table.factors);
    assert lanes[..] == shifted;
    forall i, n | 0 <= i < |samples| && 0 <= n < nSym
      ensures FlatStart(nSym, i, n) + SUBCARRIERS <= lanes.Length
    {
      assert FlatShifted(shifted, flat, table.factors[i], nSym, i, n);
    }
    forall i, n, k | 0 <= i < |samples| && 0 <= n < nSym && 0 <= k < SUBCARRIERS
      ensures NearAt(lanes, FlatStart(nSym, i, n), scalar[i], samples[i], table.factors[i], n, k)
    {
      assert FlatShifted(shifted, flat, table.factors[i], nSym, i, n);
      assert ScalarStream(scalar[i], samples[i], table.factors[i], nSym);
      assert SameSample(flat, samples[i], nSym, i, n, k);
      var at, bt := FlatStart(nSym, i, n), n * SUBCARRIERS;
      if Moderate(samples[i][bt + k], table.factors[i][k]) {
        FormsAreNear(lanes[..], flat, at, scalar[i][..], samples[i], bt, table.factors[i], k);
      }
    }
  }
}

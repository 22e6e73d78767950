/** The table path and the direct chain side by side, and the frames they agree on. */
module FramePaths {
  import opened ComplexNumbers
  import B = Buffers
  import C = Constellation
  import F = FrameLengths
  import S = Subcarriers
  import T = Transmitter
  import M = SubcarrierMap
  import TP = TablePath
  import DP = DirectPath

  /** modulate_mapping with both tables freshly initialised, for every number of streams: it
      reads inside its table of codes if and only if there are at most four. */
  method ModulateMapping(output: array<int>, nSts: nat, nSym: nat) returns (flat: array<Complex32>, inside: bool)
    requires M.Coded(output[..], nSts, nSym)
    ensures fresh(flat) && flat.Length == nSts * (S.SUBCARRIERS * nSym)
    ensures inside <==> nSts <= 4 || nSym == 0
    ensures nSts <= 4 ==> forall i :: 0 <= i < nSts ==> TP.SegmentMapped(flat[..], output[..], nSts, nSym, i)
  {
    hide TP.Entry, TP.SegmentMapped, M.TablePoint, C.Point;
    var table := TP.InitialStreamwaveTable(nSts, nSym);
    var mapping := C.InitMappingTable();
    var length := nSts * (S.SUBCARRIERS * nSym);
    flat := new Complex32[length](_ => ORIGIN);
    inside := TP.StreamInterweaveMapping(output, table, mapping, nSts, nSym, flat);
  }

  /** Run on the same coded bits of at most two symbols, the two programs leave the same
      points: stream i of the flat map is row i of the direct chain's map. */
  method RunBothPaths(output: array<int>, nSts: nat, nSym: nat)
    returns (flat: array<Complex32>, carriers: array2<Complex32>)
    requires M.Coded(output[..], nSts, nSym) && nSts <= 4 && nSym <= 2
    ensures fresh(flat) && flat.Length == nSts * (S.SUBCARRIERS * nSym)
    ensures fresh(carriers) && carriers.Length0 == nSts && carriers.Length1 == S.SUBCARRIERS * nSym
    ensures forall i :: 0 <= i < nSts ==>
              0 <= i * (S.SUBCARRIERS * nSym) <= flat.Length - S.SUBCARRIERS * nSym &&
              flat[i * (S.SUBCARRIERS * nSym)..i * (S.SUBCARRIERS * nSym) + S.SUBCARRIERS * nSym] == B.Rows(carriers)[i]
    ensures forall ss, x :: 0 <= ss < nSts && 0 <= x < carriers.Length1 ==>
              carriers[ss, x] == M.DirectPoint(output[..], nSts, nSym, ss, x / S.SUBCARRIERS, x % S.SUBCARRIERS)
  {
    hide M.TablePoint, M.DirectPoint;
    ghost var coded := output[..];
    var inside;
    flat, inside := ModulateMapping(output, nSts, nSym);
    carriers := DP.DirectChain(output, nSts, nSym);
    var width := S.SUBCARRIERS * nSym;
    forall i | 0 <= i < nSts
      ensures 0 <= i * width <= flat.Length - width
      ensures flat[i * width..i * width + width] == B.Rows(carriers)[i]
    {
      var base := i * width;
      T.NextSymbol(i, nSts, width);
      assert TP.SegmentMapped(flat[..], coded, nSts, nSym, i);
      forall x | 0 <= x < width
        ensures flat[base + x] == carriers[i, x]
      {
        M.PointsAgree(coded, nSts, nSym, i, x / S.SUBCARRIERS, x % S.SUBCARRIERS);
        assert flat[..][base + x] == flat[base + x];
      }
    }
  }

  /** N_SYM of a frame of apepLen bytes. */
  function SymbolsOfFrame(mcs: nat, nSts: nat, apepLen: nat): nat
    requires mcs < 10 && 0 < nSts
  {
    F.Symbols(apepLen, nSts * T.DATA_BITS[mcs])
  }

  /** With the configured four streams at MCS 5 the table path is right for exactly the
      frames of up to 933 bytes; the configured length of 512 bytes takes two symbols. */
  lemma ConfiguredFrames(apepLen: nat)
    ensures T.BITS_PER_SUBCARRIER[5] == 6 && SymbolsOfFrame(5, 4, 512) == 2
    ensures (forall coded :: M.Coded(coded, 4, SymbolsOfFrame(5, 4, apepLen)) ==>
               M.SameMaps(coded, 4, SymbolsOfFrame(5, 4, apepLen))) <==> apepLen <= 933
  {
    hide SymbolsOfFrame, M.SameMaps, M.Coded;
    TwoSymbolFrames(apepLen);
    TwoSymbolFrames(512);
    M.TablePathRightIff(4, SymbolsOfFrame(5, 4, apepLen));
  }

  lemma TwoSymbolFrames(apepLen: nat)
    ensures SymbolsOfFrame(5, 4, apepLen) <= 2 <==> apepLen <= 933
    ensures SymbolsOfFrame(5, 4, 512) == 2
  {
    assert T.DATA_BITS[5] == 936;
    assert SymbolsOfFrame(5, 4, apepLen) == (8 * apepLen + 3765) / 3744;
  }
}

/**
 The finished subcarrier map of a 64-QAM frame, stated point by point: once as the
 direct chain defines it and once as the precomputed table defines it, together with
 the exact condition under which the two are the same.
 */
module SubcarrierMap {
  import opened ComplexNumbers
  import DivMod
  import C = Constellation
  import S = Subcarriers
  import I = Interleaver
  import T = Transmitter

  /** Six bits per subcarrier, the modulation that the table path is built for. */
  function Qam64(nSts: nat): T.Config {
    T.Config(6, nSts)
  }

  // Data_pilot80, used by PilotAdd_SubcarMap.
  const PILOT_VALUES: seq<Complex32> := [
    Complex32(8192, 0), Complex32(8192, 0), Complex32(8192, 0), Complex32(-8192, 0),
    Complex32(-8192, 0), Complex32(8192, 0), Complex32(8192, 0), Complex32(8192, 0)]

  // Data_pilot and pilot_type, used by the table path: table entries from 6000 on are
  // not indices of coded bits but the codes of -8192, 0 and 8192.
  const SENTINEL: int := 6000
  const ZERO_CODE: int := 6001
  const PILOT_CODES: seq<int> := [6002, 6002, 6002, 6000, 6000, 6002, 6002, 6002]
  const PILOT_TYPE: seq<Complex32> := [Complex32(-8192, 0), Complex32(0, 0), Complex32(8192, 0)]

  ghost predicate Coded(coded: seq<int>, nSts: nat, nSym: nat) {
    1 <= nSts <= 8 && |coded| == nSym * Qam64(nSts).PerSymbol() && forall i :: 0 <= i < |coded| ==> C.IsBit(coded[i])
  }

  /** The constellation point of six bits. */
  function SixBits(a: int, b: int, c: int, d: int, e: int, f: int): Complex32
    requires C.IsBit(a) && C.IsBit(b) && C.IsBit(c) && C.IsBit(d) && C.IsBit(e) && C.IsBit(f)
  {
    C.Point(C.Value3(a, b, c), C.Value3(d, e, f))
  }

  /** The bit that the direct interleaver puts at position r of a symbol. */
  function DirectBit(coded: seq<int>, nSts: nat, nSym: nat, ss: nat, sym: nat, r: nat): (b: int)
    requires Coded(coded, nSts, nSym) && ss < nSts && sym < nSym && r < 1404
    ensures C.IsBit(b)
  {
    T.CodedBitInFrame(Qam64(nSts), ss, sym, r, nSym);
    coded[T.CodedBit(Qam64(nSts), ss, sym, r)]
  }

  /** The bit that the mapping loop looks up for position r of a symbol: it adds N_CBPS
      once, for every symbol after the first. */
  function TableBit(coded: seq<int>, nSts: nat, nSym: nat, ss: nat, sym: nat, r: nat): (b: int)
    requires Coded(coded, nSts, nSym) && ss < nSts && sym < nSym && r < 1404
    ensures C.IsBit(b)
  {
    OneShiftInFrame(nSts, nSym, sym);
    coded[T.TableEntry(Qam64(nSts), ss, r) + SymbolShift(nSts, sym)]
  }

  function SymbolShift(nSts: nat, sym: nat): nat {
    if sym == 0 then 0 else Qam64(nSts).PerSymbol()
  }

  lemma OneShiftInFrame(nSts: nat, nSym: nat, sym: nat)
    requires sym < nSym
    ensures SymbolShift(nSts, sym) + Qam64(nSts).PerSymbol() <= nSym * Qam64(nSts).PerSymbol()
  {
    var n := Qam64(nSts).PerSymbol();
    DivMod.Scale(if sym == 0 then 1 else 2, nSym, n);
  }

  /** The constellation point of data subcarrier n, from directly interleaved bits. */
  function DirectData(coded: seq<int>, nSts: nat, nSym: nat, ss: nat, sym: nat, n: nat): Complex32
    requires Coded(coded, nSts, nSym) && ss < nSts && sym < nSym && n < 234
  {
    SixBits(
      DirectBit(coded, nSts, nSym, ss, sym, 6 * n), DirectBit(coded, nSts, nSym, ss, sym, 6 * n + 1),
      DirectBit(coded, nSts, nSym, ss, sym, 6 * n + 2), DirectBit(coded, nSts, nSym, ss, sym, 6 * n + 3),
      DirectBit(coded, nSts, nSym, ss, sym, 6 * n + 4), DirectBit(coded, nSts, nSym, ss, sym, 6 * n + 5))
  }

  /** The constellation point of data subcarrier n, from bits looked up in the table. */
  function TableData(coded: seq<int>, nSts: nat, nSym: nat, ss: nat, sym: nat, n: nat): Complex32
    requires Coded(coded, nSts, nSym) && ss < nSts && sym < nSym && n < 234
  {
    SixBits(
      TableBit(coded, nSts, nSym, ss, sym, 6 * n), TableBit(coded, nSts, nSym, ss, sym, 6 * n + 1),
      TableBit(coded, nSts, nSym, ss, sym, 6 * n + 2), TableBit(coded, nSts, nSym, ss, sym, 6 * n + 3),
      TableBit(coded, nSts, nSym, ss, sym, 6 * n + 4), TableBit(coded, nSts, nSym, ss, sym, 6 * n + 5))
  }

  lemma DataSlotBound(j: nat)
    requires j < S.SUBCARRIERS
    ensures S.SubcarrierSlot(j).Data? ==> S.SubcarrierSlot(j).n < 234
    ensures S.SubcarrierSlot(j).Pilot? ==> S.SubcarrierSlot(j).p < 8
  {
    S.Layouts();
    S.SymbolFull();
    S.DataBeforeStep(S.PILOT_SUBCARRIERS, S.ZERO_SUBCARRIERS, j);
    S.DataBeforeMonotone(S.PILOT_SUBCARRIERS, S.ZERO_SUBCARRIERS, j + 1, S.SUBCARRIERS);
  }

  /** What the direct chain puts on subcarrier j of symbol sym of stream ss. */
  function DirectPoint(coded: seq<int>, nSts: nat, nSym: nat, ss: nat, sym: nat, j: nat): Complex32
    requires Coded(coded, nSts, nSym) && ss < nSts && sym < nSym && j < S.SUBCARRIERS
  {
    DataSlotBound(j);
    match S.SubcarrierSlot(j)
    case Pilot(p) => PILOT_VALUES[(p + sym % 8) % 8]
    case Zero => ORIGIN
    case Data(n) => DirectData(coded, nSts, nSym, ss, sym, n)
  }

  /** What the table path puts on subcarrier j of symbol sym of stream ss.  With more than
      four streams the loop takes some indices of coded bits for codes (SentinelsFreeIff). */
  function TablePoint(coded: seq<int>, nSts: nat, nSym: nat, ss: nat, sym: nat, j: nat): Complex32
    requires Coded(coded, nSts, nSym) && ss < nSts && sym < nSym && j < S.SUBCARRIERS && nSts <= 4
  {
    DataSlotBound(j);
    match S.SubcarrierSlot(j)
    case Pilot(p) => PILOT_TYPE[PILOT_CODES[(p + sym % 8) % 8] - SENTINEL]
    case Zero => PILOT_TYPE[ZERO_CODE - SENTINEL]
    case Data(n) => TableData(coded, nSts, nSym, ss, sym, n)
  }

  // ---------------------------------------------------------------------------
  // When the table path is right
  // ---------------------------------------------------------------------------

  ghost predicate SameMaps(coded: seq<int>, nSts: nat, nSym: nat)
    requires Coded(coded, nSts, nSym) && nSts <= 4
  {
    forall ss, sym, j :: 0 <= ss < nSts && 0 <= sym < nSym && 0 <= j < S.SUBCARRIERS ==>
      TablePoint(coded, nSts, nSym, ss, sym, j) == DirectPoint(coded, nSts, nSym, ss, sym, j)
  }

  /** Within the first two symbols the table path gives the direct chain's point, on
      every stream and subcarrier and for all coded bits. */
  lemma PointsAgree(coded: seq<int>, nSts: nat, nSym: nat, ss: nat, sym: nat, j: nat)
    requires Coded(coded, nSts, nSym) && ss < nSts && sym < nSym && j < S.SUBCARRIERS
    requires sym <= 1 && nSts <= 4
    ensures TablePoint(coded, nSts, nSym, ss, sym, j) == DirectPoint(coded, nSts, nSym, ss, sym, j)
  {
    hide S.SubcarrierSlot, DirectBit, TableBit, SixBits;
    DataSlotBound(j);
    match S.SubcarrierSlot(j)
    case Pilot(p) => PilotsAgree((p + sym % 8) % 8);
    case Zero =>
    case Data(n) =>
      forall r | 0 <= r < 1404
        ensures TableBit(coded, nSts, nSym, ss, sym, r) == DirectBit(coded, nSts, nSym, ss, sym, r)
      {
        BitsAgree(coded, nSts, nSym, ss, sym, r);
      }
  }

  lemma BitsAgree(coded: seq<int>, nSts: nat, nSym: nat, ss: nat, sym: nat, r: nat)
    requires Coded(coded, nSts, nSym) && ss < nSts && sym < nSym && r < 1404
    requires sym <= 1
    ensures TableBit(coded, nSts, nSym, ss, sym, r) == DirectBit(coded, nSts, nSym, ss, sym, r)
  {
    hide T.TableEntry, T.CodedBit;
    T.CodedBitFromTable(Qam64(nSts), ss, sym, r);
  }

  lemma PilotsAgree(i: nat)
    requires i < 8
    ensures PILOT_TYPE[PILOT_CODES[i] - SENTINEL] == PILOT_VALUES[i]
  {
    assert i == 0 || i == 1 || i == 2 || i == 3 || i == 4 || i == 5 || i == 6 || i == 7;
  }

  /** The table path agrees with the direct chain on all coded bits if and only if the
      frame has at most two symbols. */
  lemma TablePathRightIff(nSts: nat, nSym: nat)
    requires 1 <= nSts <= 4
    ensures (forall coded :: Coded(coded, nSts, nSym) ==> SameMaps(coded, nSts, nSym)) <==> nSym <= 2
  {
    if nSym <= 2 {
      forall coded | Coded(coded, nSts, nSym)
        ensures SameMaps(coded, nSts, nSym)
      {
        forall ss, sym, j | 0 <= ss < nSts && 0 <= sym < nSym && 0 <= j < S.SUBCARRIERS
          ensures TablePoint(coded, nSts, nSym, ss, sym, j) == DirectPoint(coded, nSts, nSym, ss, sym, j)
        {
          PointsAgree(coded, nSts, nSym, ss, sym, j);
        }
      }
    } else {
      ThirdSymbolDiffers(nSts, nSym);
      assert !SameMaps(OneBitFrame(nSts, nSym), nSts, nSym);
    }
  }

  /** A frame whose only set bit is the first one that the third symbol carries. */
  function OneBitFrame(nSts: nat, nSym: nat): (coded: seq<int>)
    requires 1 <= nSts <= 8 && nSym >= 3
    ensures Coded(coded, nSts, nSym)
    ensures forall i :: 0 <= i < |coded| ==> coded[i] == if i == T.CodedBit(Qam64(nSts), 0, 2, 0) then 1 else 0
  {
    OneBit(nSym * Qam64(nSts).PerSymbol(), T.CodedBit(Qam64(nSts), 0, 2, 0))
  }

  function OneBit(length: nat, place: int): (bits: seq<int>)
    ensures |bits| == length
    ensures forall i :: 0 <= i < length ==> bits[i] == if i == place then 1 else 0
  {
    seq(length, i => if i == place then 1 else 0)
  }

  lemma ThirdSymbolDiffers(nSts: nat, nSym: nat)
    requires 1 <= nSts <= 4 && nSym >= 3
    ensures var coded := OneBitFrame(nSts, nSym);
            TablePoint(coded, nSts, nSym, 0, 2, 6) != DirectPoint(coded, nSts, nSym, 0, 2, 6)
  {
    hide S.SubcarrierSlot, DirectBit, TableBit, SixBits, BitOfPoint;
    var coded := OneBitFrame(nSts, nSym);
    FirstDataSubcarrier();
    OneBitRead(nSts, nSym);
    DirectDataRoundTrip(coded, nSts, nSym, 0, 2, 0, 0);
    TableDataRoundTrip(coded, nSts, nSym, 0, 2, 0, 0);
  }

  lemma OneBitRead(nSts: nat, nSym: nat)
    requires 1 <= nSts <= 8 && nSym >= 3
    ensures DirectBit(OneBitFrame(nSts, nSym), nSts, nSym, 0, 2, 0) == 1
    ensures TableBit(OneBitFrame(nSts, nSym), nSts, nSym, 0, 2, 0) == 0
  {
    hide T.TableEntry, T.CodedBit;
    T.CodedBitInFrame(Qam64(nSts), 0, 2, 0, nSym);
    ThirdSymbolUnread(nSts, nSym, 0, 2, 0);
  }

  /** The table path reads only the first two symbols' worth of coded bits. */
  lemma ThirdSymbolUnread(nSts: nat, nSym: nat, ss: nat, sym: nat, r: nat)
    requires 1 <= nSts <= 8 && nSym >= 3 && ss < nSts && sym < nSym && r < 1404
    ensures TableBit(OneBitFrame(nSts, nSym), nSts, nSym, ss, sym, r) == 0
  {
    hide T.TableEntry, T.CodedBit;
    T.CodedBitFromTable(Qam64(nSts), 0, 2, 0);
    T.CodedBitInFrame(Qam64(nSts), 0, 2, 0, nSym);
    OneShiftInFrame(nSts, nSym, sym);
  }

  lemma FirstDataSubcarrier()
    ensures S.SubcarrierSlot(6) == S.Data(0)
  {
    S.Layouts();
    S.PassedIs(S.PILOT_SUBCARRIERS, 6, 0);
    S.PassedIs(S.ZERO_SUBCARRIERS, 6, 6);
  }

  /** The codes from 6000 on are free for pilots and zeros exactly when no index of a
      coded bit reaches them, that is for at most four streams. */
  lemma SentinelsFreeIff(nSts: nat)
    requires 1 <= nSts <= 8
    ensures (forall ss, r :: 0 <= ss < nSts && 0 <= r < 1404 ==> T.TableEntry(Qam64(nSts), ss, r) < SENTINEL)
      <==> nSts <= 4
  {
    hide T.TableEntry, T.Destination;
    var c := Qam64(nSts);
    if nSts >= 5 {
      var i := c.PerSymbol() - 1;
      var p := T.Destination(c, i);
      T.TableEntryOfDestination(c, i);
      assert T.TableEntry(c, p.0, p.2) == i >= SENTINEL;
    }
  }

  /** The heads of the first groups of six of the first stream: bit 156 * n of the stream, the
      first place of row 6 * n of the interleaver, which no rotation moves. */
  lemma FirstHeads(nSts: nat, n: nat)
    requires 5 <= nSts <= 8 && n <= 8
    ensures T.TableEntry(Qam64(nSts), 0, 6 * n) == 156 * n * nSts
  {
    hide T.Origin, T.Parsed, T.Position, I.RowColumn, I.BlockRotate, I.Rotate, T.Rotation;
    var c, k := Qam64(nSts), 156 * n;
    var sh := c.Interleaving();
    T.PositionSteps(c, 0, k);
    I.RowColumnIndex(sh, k);
    assert k % 26 == 0 && k / 26 == 6 * n;
    assert I.RowColumn(sh, k) == 6 * n;
    I.BlockRotateIndex(sh, 6 * n);
    FirstBlocksStay(6 * n);
    assert I.BlockRotate(sh, 6 * n) == 6 * n;
    T.RotationIndex(c, 0);
    RotateByNone(sh.Size(), 6 * n);
    T.PositionRoundTrip(c, 0, k);
    T.ParsedIndex(c, 0, k);
    assert k / 3 == 52 * n && k % 3 == 0;
    Reorder(nSts, n);
  }

  lemma FirstBlocksStay(r: nat)
    requires r < 54 && r % 3 == 0
    ensures 3 * (r / 3) + (r + 1404 - 26 * r / 1404) % 3 == r
  {
    DivMod.Unique(26 * r, 1404, 0, 26 * r);
  }

  lemma RotateByNone(size: nat, r: nat)
    requires r < size
    ensures I.Rotate(size, r, 0) == r
  {
    I.ResidueItself(r, size);
  }

  lemma Reorder(nSts: nat, n: nat)
    ensures 0 * 3 + nSts * 3 * (52 * n) + 0 == 156 * n * nSts
  {
  }

  /** The first group of the first stream whose head is taken for a code. */
  function StrayGroup(nSts: nat): (n: nat)
    requires 5 <= nSts <= 8
    ensures n <= 8
  {
    13 - nSts
  }

  /** With five or more streams: up to that group all heads are below the codes, and its own
      head is beyond all of them. */
  lemma StrayHead(nSts: nat, n: nat)
    requires 5 <= nSts <= 8 && n <= StrayGroup(nSts)
    ensures if n < StrayGroup(nSts) then T.TableEntry(Qam64(nSts), 0, 6 * n) < SENTINEL
            else T.TableEntry(Qam64(nSts), 0, 6 * n) > SENTINEL + 2
  {
    hide T.TableEntry;
    FirstHeads(nSts, n);
    DivMod.Scale(n, StrayGroup(nSts) - if n < StrayGroup(nSts) then 1 else 0, 156 * nSts);
    assert nSts == 5 || nSts == 6 || nSts == 7 || nSts == 8;
  }

  // ---------------------------------------------------------------------------
  // Reading the coded bits back
  // ---------------------------------------------------------------------------

  /** The subcarrier that carries data item n. */
  function Carrier(n: nat, from: nat): (j: nat)
    requires n < 234 && from < S.SUBCARRIERS && S.DataSubcarriersBefore(from) <= n
    ensures j < S.SUBCARRIERS && S.SubcarrierSlot(j) == S.Data(n)
    decreases S.SUBCARRIERS - from
  {
    S.Layouts();
    S.SymbolFull();
    S.DataBeforeStep(S.PILOT_SUBCARRIERS, S.ZERO_SUBCARRIERS, from);
    if S.SubcarrierSlot(from) == S.Data(n) then from else Carrier(n, from + 1)
  }

  /** Bit q of the six bits of a point. */
  function BitOfPoint(point: Complex32, q: nat): int
    requires q < 6
  {
    if q < 3 then C.BitOf3(C.AxisValue(point.re), q) else C.BitOf3(C.AxisValue(point.im), q - 3)
  }

  lemma SixBitsRoundTrip(a: int, b: int, c: int, d: int, e: int, f: int)
    requires C.IsBit(a) && C.IsBit(b) && C.IsBit(c) && C.IsBit(d) && C.IsBit(e) && C.IsBit(f)
    ensures var point := SixBits(a, b, c, d, e, f);
            BitOfPoint(point, 0) == a && BitOfPoint(point, 1) == b && BitOfPoint(point, 2) == c &&
            BitOfPoint(point, 3) == d && BitOfPoint(point, 4) == e && BitOfPoint(point, 5) == f
  {
    hide C.Point, C.AxisValue, C.Value3, C.BitOf3;
    C.PointRoundTrip(C.Value3(a, b, c), C.Value3(d, e, f));
    C.BitsRoundTrip(a, b, c);
    C.BitsRoundTrip(d, e, f);
  }

  lemma DirectDataRoundTrip(coded: seq<int>, nSts: nat, nSym: nat, ss: nat, sym: nat, n: nat, q: nat)
    requires Coded(coded, nSts, nSym) && ss < nSts && sym < nSym && n < 234 && q < 6
    ensures BitOfPoint(DirectData(coded, nSts, nSym, ss, sym, n), q) == DirectBit(coded, nSts, nSym, ss, sym, 6 * n + q)
  {
    hide DirectBit, SixBits, BitOfPoint;
    SixBitsRoundTrip(
      DirectBit(coded, nSts, nSym, ss, sym, 6 * n), DirectBit(coded, nSts, nSym, ss, sym, 6 * n + 1),
      DirectBit(coded, nSts, nSym, ss, sym, 6 * n + 2), DirectBit(coded, nSts, nSym, ss, sym, 6 * n + 3),
      DirectBit(coded, nSts, nSym, ss, sym, 6 * n + 4), DirectBit(coded, nSts, nSym, ss, sym, 6 * n + 5));
    assert q == 0 || q == 1 || q == 2 || q == 3 || q == 4 || q == 5;
  }

  lemma TableDataRoundTrip(coded: seq<int>, nSts: nat, nSym: nat, ss: nat, sym: nat, n: nat, q: nat)
    requires Coded(coded, nSts, nSym) && ss < nSts && sym < nSym && n < 234 && q < 6
    ensures BitOfPoint(TableData(coded, nSts, nSym, ss, sym, n), q) == TableBit(coded, nSts, nSym, ss, sym, 6 * n + q)
  {
    hide TableBit, SixBits, BitOfPoint;
    SixBitsRoundTrip(
      TableBit(coded, nSts, nSym, ss, sym, 6 * n), TableBit(coded, nSts, nSym, ss, sym, 6 * n + 1),
      TableBit(coded, nSts, nSym, ss, sym, 6 * n + 2), TableBit(coded, nSts, nSym, ss, sym, 6 * n + 3),
      TableBit(coded, nSts, nSym, ss, sym, 6 * n + 4), TableBit(coded, nSts, nSym, ss, sym, 6 * n + 5));
    assert q == 0 || q == 1 || q == 2 || q == 3 || q == 4 || q == 5;
  }

  /** Coded bit i is read back from the direct chain's map at the place that the
      interleaver sends it to; no other knowledge of the coded bits is used. */
  lemma CodedBitRecovered(coded: seq<int>, nSts: nat, nSym: nat, i: nat)
    requires Coded(coded, nSts, nSym) && i < |coded|
    ensures var (ss, sym, r) := T.Destination(Qam64(nSts), i);
            ss < nSts && sym < nSym && S.DataSubcarriersBefore(0) == 0 &&
            BitOfPoint(DirectPoint(coded, nSts, nSym, ss, sym, Carrier(r / 6, 0)), r % 6) == coded[i]
  {
    hide T.Destination, T.CodedBit, S.SubcarrierSlot, DirectData, BitOfPoint;
    var c := Qam64(nSts);
    var (ss, sym, r) := T.Destination(c, i);
    T.CodedBitOfDestination(c, i, nSym);
    NothingBeforeStart();
    DirectDataRoundTrip(coded, nSts, nSym, ss, sym, r / 6, r % 6);
    assert 6 * (r / 6) + r % 6 == r;
  }

  lemma NothingBeforeStart()
    ensures S.DataSubcarriersBefore(0) == 0
  {
    S.Layouts();
    S.RoomForData(S.PILOT_SUBCARRIERS, S.ZERO_SUBCARRIERS, 0);
  }

  ghost predicate SameTableMap(first: seq<int>, second: seq<int>, nSts: nat, nSym: nat)
    requires Coded(first, nSts, nSym) && Coded(second, nSts, nSym) && nSts <= 4
  {
    forall ss, sym, j :: 0 <= ss < nSts && 0 <= sym < nSym && 0 <= j < S.SUBCARRIERS ==>
      TablePoint(first, nSts, nSym, ss, sym, j) == TablePoint(second, nSts, nSym, ss, sym, j)
  }

  /** Frames of at most two symbols with the same table-path map carry the same bits. */
  lemma DistinctFramesDistinctMaps(first: seq<int>, second: seq<int>, nSts: nat, nSym: nat)
    requires nSym <= 2 && nSts <= 4 && Coded(first, nSts, nSym) && Coded(second, nSts, nSym)
    requires SameTableMap(first, second, nSts, nSym)
    ensures first == second
  {
    hide TablePoint, DirectPoint, T.Destination, BitOfPoint;
    forall i | 0 <= i < |first|
      ensures first[i] == second[i]
    {
      var (ss, sym, r) := T.Destination(Qam64(nSts), i);
      CodedBitRecovered(first, nSts, nSym, i);
      CodedBitRecovered(second, nSts, nSym, i);
      PointsAgree(first, nSts, nSym, ss, sym, Carrier(r / 6, 0));
      PointsAgree(second, nSts, nSym, ss, sym, Carrier(r / 6, 0));
    }
  }

  /** From the third symbol on the table path loses bits: a frame with one set bit there has
      the map of the frame without it. */
  lemma ThirdSymbolLost(nSts: nat, nSym: nat)
    requires 1 <= nSts <= 4 && nSym >= 3
    ensures var zeros := OneBit(nSym * Qam64(nSts).PerSymbol(), -1);
      Coded(zeros, nSts, nSym) && zeros != OneBitFrame(nSts, nSym)
      && SameTableMap(OneBitFrame(nSts, nSym), zeros, nSts, nSym)
  {
    hide T.TableEntry, T.CodedBit, S.SubcarrierSlot, SixBits;
    var first, zeros := OneBitFrame(nSts, nSym), OneBit(nSym * Qam64(nSts).PerSymbol(), -1);
    T.CodedBitInFrame(Qam64(nSts), 0, 2, 0, nSym);
    assert first[T.CodedBit(Qam64(nSts), 0, 2, 0)] == 1;
    forall ss, sym, j | 0 <= ss < nSts && 0 <= sym < nSym && 0 <= j < S.SUBCARRIERS
      ensures TablePoint(first, nSts, nSym, ss, sym, j) == TablePoint(zeros, nSts, nSym, ss, sym, j)
    {
      DataSlotBound(j);
      if S.SubcarrierSlot(j).Data? {
        SameTableData(nSts, nSym, ss, sym, S.SubcarrierSlot(j).n);
      }
    }
  }

  lemma SameTableData(nSts: nat, nSym: nat, ss: nat, sym: nat, n: nat)
    requires 1 <= nSts <= 4 && nSym >= 3 && ss < nSts && sym < nSym && n < 234
    ensures Coded(OneBit(nSym * Qam64(nSts).PerSymbol(), -1), nSts, nSym)
    ensures TableData(OneBitFrame(nSts, nSym), nSts, nSym, ss, sym, n)
         == TableData(OneBit(nSym * Qam64(nSts).PerSymbol(), -1), nSts, nSym, ss, sym, n)
  {
    hide T.TableEntry, SixBits, OneBitFrame;
    var zeros := OneBit(nSym * Qam64(nSts).PerSymbol(), -1);
    assert Coded(zeros, nSts, nSym);
    forall r | 0 <= r < 1404
      ensures TableBit(OneBitFrame(nSts, nSym), nSts, nSym, ss, sym, r) == TableBit(zeros, nSts, nSym, ss, sym, r)
    {
      ThirdSymbolUnread(nSts, nSym, ss, sym, r);
      OneShiftInFrame(nSts, nSym, sym);
    }
  }

  /** The table path's map determines the coded bits if and only if the frame has at most two
      symbols. */
  lemma TableMapInjectiveIff(nSts: nat, nSym: nat)
    requires 1 <= nSts <= 4
    ensures (forall first, second |
               Coded(first, nSts, nSym) && Coded(second, nSts, nSym) && SameTableMap(first, second, nSts, nSym)
               :: first == second)
      <==> nSym <= 2
  {
    hide SameTableMap, Coded, OneBitFrame;
    if nSym <= 2 {
      forall first, second | Coded(first, nSts, nSym) && Coded(second, nSts, nSym)
        && SameTableMap(first, second, nSts, nSym)
        ensures first == second
      {
        DistinctFramesDistinctMaps(first, second, nSts, nSym);
      }
    } else {
      ThirdSymbolLost(nSts, nSym);
    }
  }
}

/**
 The direct chain for 64-QAM: interleave the coded bits, turn groups of bits into values
 in place, map pairs of values to constellation points, and place the points between
 pilots and zeros.
 */
module DirectPath {
  import opened ComplexNumbers
  import opened PowersOfTwo
  import B = Buffers
  import DivMod
  import C = Constellation
  import S = Subcarriers
  import T = Transmitter
  import L = InterleaverLoops
  import M = SubcarrierMap

  // ---------------------------------------------------------------------------
  // bi2de
  // ---------------------------------------------------------------------------

  /** Only a byte equal to 1 counts as a set bit. */
  function Ones(bytes: seq<int>): (bits: seq<int>)
    ensures |bits| == |bytes| && forall i :: 0 <= i < |bits| ==> bits[i] == if bytes[i] == 1 then 1 else 0
  {
    seq(|bytes|, i requires 0 <= i < |bytes| => if bytes[i] == 1 then 1 else 0)
  }

  /** Group j of `mode` bytes lies inside the row. */
  ghost predicate HasGroup(row: seq<int>, mode: nat, j: nat) {
    0 <= j * mode <= |row| - mode && j <= j * mode
  }

  /** The value of group j of `mode` bytes of a row. */
  ghost function GroupValue(row: seq<int>, mode: nat, j: nat): int
    requires HasGroup(row, mode, j)
  {
    var from := j * mode;
    C.Value(Ones(row[from..from + mode]))
  }

  /** Adding the next bit with its weight extends the weighted value of the group. */
  lemma NextBit(row: seq<int>, from: nat, k: nat, rest: nat)
    requires from + k < |row| && rest > 0
    ensures C.Value(Ones(row[from..from + k + 1])) * Pow2(rest - 1)
         == C.Value(Ones(row[from..from + k])) * Pow2(rest) + if row[from + k] == 1 then Pow2(rest - 1) else 0
  {
    hide C.Value, Ones, Pow2;
    var b := if row[from + k] == 1 then 1 else 0;
    var group := Ones(row[from..from + k]);
    assert Ones(row[from..from + k + 1]) == group + [b];
    C.ValueAppend(group, b);
    Pow2Double(rest);
    Weigh(C.Value(group), b, Pow2(rest - 1));
  }

  lemma Weigh(v: int, b: int, w: int)
    ensures (2 * v + b) * w == v * (2 * w) + b * w
  {
  }

  lemma GroupInRow(row: seq<int>, mode: nat, j: nat)
    requires 0 < mode && j < |row| / mode
    ensures HasGroup(row, mode, j)
  {
    var num := |row| / mode;
    DivMod.Split(|row|, mode);
    T.NextSymbol(j, num, mode);
    DivMod.Scale(1, mode, j);
  }

  /** The value of one group, computed by the innermost loop. */
  method GroupOf(codeOut: array2<int>, i: nat, j: nat, mode: nat, ghost row: seq<int>) returns (out: int)
    requires i < codeOut.Length0 && |row| == codeOut.Length1
    requires HasGroup(row, mode, j)
    requires forall x :: j <= x < codeOut.Length1 ==> codeOut[i, x] == row[x]
    ensures out == GroupValue(row, mode, j)
  {
    hide C.Value, Ones, Pow2;
    var from := j * mode;
    out := 0;
    NoBits(row, from, mode);
    for k := 0 to mode
      invariant out == C.Value(Ones(row[from..from + k])) * Pow2(mode - k)
    {
      NextBit(row, from, k, mode - k);
      if codeOut[i, from + k] == 1 {
        out := out + Pow2(mode - k - 1);
      }
    }
    AllBits(row, from, mode);
  }

  lemma NoBits(row: seq<int>, from: nat, mode: nat)
    requires from + mode <= |row|
    ensures C.Value(Ones(row[from..from + 0])) * Pow2(mode) == 0
  {
  }

  lemma AllBits(row: seq<int>, from: nat, mode: nat)
    requires from + mode <= |row|
    ensures C.Value(Ones(row[from..from + mode])) * Pow2(mode - mode) == C.Value(Ones(row[from..from + mode]))
  {
  }

  /** Row i starts with the first `count` group values of `row`. */
  ghost predicate Grouped(codeOut: array2<int>, i: nat, row: seq<int>, mode: nat, count: nat)
    requires i < codeOut.Length0 && |row| == codeOut.Length1
    requires count <= codeOut.Length1
    reads codeOut
  {
    forall j :: 0 <= j < count ==> HasGroup(row, mode, j) && codeOut[i, j] == GroupValue(row, mode, j)
  }

  /** bi2de on one row overwrites its start with the values of its groups.  Group j is
      read only from places that earlier groups have not overwritten. */
  method GroupRow(codeOut: array2<int>, i: nat, mode: nat)
    requires i < codeOut.Length0 && 0 < mode && codeOut.Length1 / mode <= codeOut.Length1
    modifies codeOut
    ensures Grouped(codeOut, i, old(B.Rows(codeOut)[i]), mode, codeOut.Length1 / mode)
    ensures forall s, x :: 0 <= s < codeOut.Length0 && s != i && 0 <= x < codeOut.Length1 ==>
              codeOut[s, x] == old(codeOut[s, x])
  {
    hide GroupValue, HasGroup;
    ghost var row := B.Rows(codeOut)[i];
    var num := codeOut.Length1 / mode;
    for j := 0 to num
      invariant Grouped(codeOut, i, row, mode, j)
      invariant forall x :: j <= x < codeOut.Length1 ==> codeOut[i, x] == row[x]
      invariant forall s, x :: 0 <= s < codeOut.Length0 && s != i && 0 <= x < codeOut.Length1 ==>
                  codeOut[s, x] == old(codeOut[s, x])
    {
      GroupInRow(row, mode, j);
      var out := GroupOf(codeOut, i, j, mode, row);
      codeOut[i, j] := out;
    }
  }

  lemma FewerGroups(length: nat, mode: nat)
    requires 0 < mode
    ensures 0 <= length / mode <= length
  {
    DivMod.Split(length, mode);
    DivMod.Scale(1, mode, length / mode);
  }

  method Bi2de(codeOut: array2<int>, mode: nat)
    requires mode > 0
    modifies codeOut
    ensures codeOut.Length1 / mode <= codeOut.Length1
    ensures forall i :: 0 <= i < codeOut.Length0 ==>
              Grouped(codeOut, i, old(B.Rows(codeOut))[i], mode, codeOut.Length1 / mode)
  {
    hide GroupValue, HasGroup;
    ghost var rows := B.Rows(codeOut);
    FewerGroups(codeOut.Length1, mode);
    for i := 0 to codeOut.Length0
      invariant forall s :: 0 <= s < i ==> Grouped(codeOut, s, rows[s], mode, codeOut.Length1 / mode)
      invariant forall s, x :: i <= s < codeOut.Length0 && 0 <= x < codeOut.Length1 ==> codeOut[s, x] == rows[s][x]
    {
      assert B.Rows(codeOut)[i] == rows[i];
      label before:
      GroupRow(codeOut, i, mode);
      forall s | 0 <= s < i
        ensures Grouped(codeOut, s, rows[s], mode, codeOut.Length1 / mode)
      {
        assert old@before(Grouped(codeOut, s, rows[s], mode, codeOut.Length1 / mode));
      }
    }
  }

  // ---------------------------------------------------------------------------
  // Modulation_11ax
  // ---------------------------------------------------------------------------

  /** Modulation_11ax for three bits per axis: a point from each pair of values. */
  method Modulation11ax(codeOut: array2<int>, num: nat, symMod: array2<Complex32>)
    requires codeOut.Length0 == symMod.Length0 && 2 * num <= codeOut.Length1 && num <= symMod.Length1
    requires forall i, x :: 0 <= i < codeOut.Length0 && 0 <= x < 2 * num ==> 0 <= codeOut[i, x] < 8
    modifies symMod
    ensures forall i, j :: 0 <= i < symMod.Length0 && 0 <= j < num ==>
              symMod[i, j] == C.Point(codeOut[i, 2 * j], codeOut[i, 2 * j + 1])
  {
    hide C.Qam8;
    for i := 0 to codeOut.Length0
      invariant forall s, j :: 0 <= s < i && 0 <= j < num ==>
                  symMod[s, j] == C.Point(codeOut[s, 2 * j], codeOut[s, 2 * j + 1])
    {
      for j := 0 to num
        invariant forall s, j' :: 0 <= s < i && 0 <= j' < num ==>
                    symMod[s, j'] == C.Point(codeOut[s, 2 * j'], codeOut[s, 2 * j' + 1])
        invariant forall j' :: 0 <= j' < j ==>
                    symMod[i, j'] == C.Point(codeOut[i, 2 * j'], codeOut[i, 2 * j' + 1])
      {
        var re := C.GRAY[codeOut[i, 2 * j]];
        var im := C.GRAY[codeOut[i, 2 * j + 1]];
        var k := (8 - im) * 8 + re;
        symMod[i, j] := C.Qam8(k - 1);
      }
    }
  }

  /** The point of six bits of a row, from position 6 * j on. */
  function RowPoint(row: seq<int>, j: nat): Complex32
    requires 6 * j + 6 <= |row|
    requires forall x :: 0 <= x < |row| ==> C.IsBit(row[x])
  {
    var x := 6 * j;
    M.SixBits(row[x], row[x + 1], row[x + 2], row[x + 3], row[x + 4], row[x + 5])
  }

  lemma ThreeBitGroup(row: seq<int>, j: nat)
    requires 3 * j + 3 <= |row|
    requires forall x :: 0 <= x < |row| ==> C.IsBit(row[x])
    ensures HasGroup(row, 3, j) && GroupValue(row, 3, j) == C.Value3(row[3 * j], row[3 * j + 1], row[3 * j + 2])
  {
    hide C.Value;
    var x := 3 * j;
    assert Ones(row[x..x + 3]) == [row[x], row[x + 1], row[x + 2]];
    C.ValueOfThree(row[x], row[x + 1], row[x + 2]);
  }

  /** modulate for six bits per subcarrier. */
  method Modulate(codeOut: array2<int>, symMod: array2<Complex32>)
    requires codeOut.Length0 == symMod.Length0 && codeOut.Length1 == 6 * symMod.Length1
    requires forall i, x :: 0 <= i < codeOut.Length0 && 0 <= x < codeOut.Length1 ==> C.IsBit(codeOut[i, x])
    modifies codeOut, symMod
    ensures forall i, j :: 0 <= i < symMod.Length0 && 0 <= j < symMod.Length1 ==>
              symMod[i, j] == RowPoint(old(B.Rows(codeOut))[i], j)
  {
    hide GroupValue, C.Point, C.Value3, RowPoint;
    ghost var rows := B.Rows(codeOut);
    Bi2de(codeOut, 3);
    forall i, j | 0 <= i < codeOut.Length0 && 0 <= j < 2 * symMod.Length1
      ensures HasGroup(rows[i], 3, j) && codeOut[i, j] == GroupValue(rows[i], 3, j) && 0 <= codeOut[i, j] < 8
    {
      assert Grouped(codeOut, i, rows[i], 3, codeOut.Length1 / 3);
      ThreeBitGroup(rows[i], j);
    }
    Modulation11ax(codeOut, symMod.Length1, symMod);
    forall i, j | 0 <= i < symMod.Length0 && 0 <= j < symMod.Length1
      ensures symMod[i, j] == RowPoint(rows[i], j)
    {
      PairPoint(rows[i], j);
    }
  }

  lemma PairPoint(row: seq<int>, j: nat)
    requires 6 * j + 6 <= |row|
    requires forall x :: 0 <= x < |row| ==> C.IsBit(row[x])
    ensures HasGroup(row, 3, 2 * j) && 0 <= GroupValue(row, 3, 2 * j) < 8
    ensures HasGroup(row, 3, 2 * j + 1) && 0 <= GroupValue(row, 3, 2 * j + 1) < 8
    ensures C.Point(GroupValue(row, 3, 2 * j), GroupValue(row, 3, 2 * j + 1)) == RowPoint(row, j)
  {
    hide GroupValue, C.Point, C.Value3;
    ThreeBitGroup(row, 2 * j);
    ThreeBitGroup(row, 2 * j + 1);
  }

  // ---------------------------------------------------------------------------
  // PilotAdd_SubcarMap
  // ---------------------------------------------------------------------------

  /** What PilotAdd_SubcarMap writes on subcarrier j of symbol sym of a stream. */
  function CarrierPoint(row: seq<Complex32>, sym: nat, j: nat): Complex32
    requires 234 * (sym + 1) <= |row| && j < S.SUBCARRIERS
  {
    M.DataSlotBound(j);
    match S.SubcarrierSlot(j)
    case Pilot(p) => M.PILOT_VALUES[(p + sym % 8) % 8]
    case Zero => ORIGIN
    case Data(n) => row[n + sym * 234]
  }

  ghost predicate Placed(rows: seq<seq<Complex32>>, carriers: array2<Complex32>, nSym: nat, count: nat)
    requires |rows| == carriers.Length0 && carriers.Length1 == S.SUBCARRIERS * nSym && count <= carriers.Length1
    requires forall ss :: 0 <= ss < |rows| ==> |rows[ss]| == 234 * nSym
    reads carriers
  {
    forall ss, x :: 0 <= ss < carriers.Length0 && 0 <= x < count ==>
      carriers[ss, x] == CarrierPoint(rows[ss], x / S.SUBCARRIERS, x % S.SUBCARRIERS)
  }

  lemma CarrierPointAt(row: seq<Complex32>, sym: nat, j: nat)
    requires 234 * (sym + 1) <= |row| && j < S.SUBCARRIERS
    ensures S.Layout(S.PILOT_SUBCARRIERS, S.ZERO_SUBCARRIERS)
    ensures match S.SlotOf(S.PILOT_SUBCARRIERS, S.ZERO_SUBCARRIERS, j)
            case Pilot(p) => (p < 8 && CarrierPoint(row, sym, j) == M.PILOT_VALUES[(p + sym % 8) % 8])
            case Zero => CarrierPoint(row, sym, j) == ORIGIN
            case Data(n) => (n < 234 && CarrierPoint(row, sym, j) == row[n + sym * 234])
  {
    hide S.Passed, S.SlotOf;
    S.Layouts();
    M.DataSlotBound(j);
  }

  /** One symbol of PilotAdd_SubcarMap: a scan with pointers p and z to the next pilot and
      the next zero and a counter n of data points. */
  method PlaceSymbol(symMod: array2<Complex32>, nSym: nat, sym: nat, carriers: array2<Complex32>)
    requires symMod != carriers && symMod.Length0 == carriers.Length0 > 0 && sym < nSym
    requires symMod.Length1 == 234 * nSym && carriers.Length1 == S.SUBCARRIERS * nSym
    requires Placed(B.Rows(symMod), carriers, nSym, S.SUBCARRIERS * sym)
    modifies carriers
    ensures Placed(B.Rows(symMod), carriers, nSym, S.SUBCARRIERS * (sym + 1))
  {
    hide CarrierPoint, S.Passed, S.SlotOf, S.Layout;
    S.Layouts();
    ghost var rows := B.Rows(symMod);
    var n, p, z := 0, 0, 0;
    S.ScanStart(S.PILOT_SUBCARRIERS, S.ZERO_SUBCARRIERS);
    for j := 0 to S.SUBCARRIERS
      invariant p == S.Passed(S.PILOT_SUBCARRIERS, j) && z == S.Passed(S.ZERO_SUBCARRIERS, j)
      invariant n + p + z == j
      invariant Placed(rows, carriers, nSym, S.SUBCARRIERS * sym + j)
    {
      S.ScanStep(S.PILOT_SUBCARRIERS, S.ZERO_SUBCARRIERS, j);
      var x := j + sym * S.SUBCARRIERS;
      assert x / S.SUBCARRIERS == sym && x % S.SUBCARRIERS == j;
      forall ss | 0 <= ss < carriers.Length0
        ensures match S.SlotOf(S.PILOT_SUBCARRIERS, S.ZERO_SUBCARRIERS, j)
                case Pilot(p) => (p < 8 && CarrierPoint(rows[ss], sym, j) == M.PILOT_VALUES[(p + sym % 8) % 8])
                case Zero => CarrierPoint(rows[ss], sym, j) == ORIGIN
                case Data(n) => (n < 234 && CarrierPoint(rows[ss], sym, j) == rows[ss][n + sym * 234])
      {
        CarrierPointAt(rows[ss], sym, j);
      }
      if p < 8 && j + 1 == S.PILOT_SUBCARRIERS[p] {
        B.FillColumn(carriers, x, M.PILOT_VALUES[(p + sym % 8) % 8]);
        p := p + 1;
      } else if z < 14 && j + 1 == S.ZERO_SUBCARRIERS[z] {
        B.FillColumn(carriers, x, ORIGIN);
        z := z + 1;
      } else {
        CarrierPointAt(rows[0], sym, j);
        B.CopyColumn(symMod, n + sym * 234, carriers, x);
        n := n + 1;
      }
    }
  }

  method PilotAddSubcarMap(symMod: array2<Complex32>, nSym: nat, carriers: array2<Complex32>)
    requires symMod != carriers && symMod.Length0 == carriers.Length0 > 0
    requires symMod.Length1 == 234 * nSym && carriers.Length1 == S.SUBCARRIERS * nSym
    modifies carriers
    ensures Placed(B.Rows(symMod), carriers, nSym, S.SUBCARRIERS * nSym)
  {
    for sym := 0 to nSym
      invariant Placed(B.Rows(symMod), carriers, nSym, S.SUBCARRIERS * sym)
    {
      PlaceSymbol(symMod, nSym, sym, carriers);
    }
  }

  // ---------------------------------------------------------------------------
  // The whole chain
  // ---------------------------------------------------------------------------

  /** BCC_encoder from the parser on, modulate and PilotAdd_SubcarMap in turn. */
  method DirectChain(output: array<int>, nSts: nat, nSym: nat) returns (carriers: array2<Complex32>)
    requires M.Coded(output[..], nSts, nSym)
    ensures fresh(carriers) && carriers.Length0 == nSts && carriers.Length1 == S.SUBCARRIERS * nSym
    ensures forall ss, x :: 0 <= ss < nSts && 0 <= x < carriers.Length1 ==>
              carriers[ss, x] == M.DirectPoint(output[..], nSts, nSym, ss, x / S.SUBCARRIERS, x % S.SUBCARRIERS)
  {
    hide T.CodedAt, M.DirectPoint, CarrierPoint, RowPoint;
    ghost var coded := output[..];
    var codeOut := new int[nSts, 1404 * nSym];
    L.BccInterleave(output, nSym, M.Qam64(nSts), codeOut);
    ghost var rows := B.Rows(codeOut);
    var symMod := new Complex32[nSts, 234 * nSym]((_, _) => ORIGIN);
    Modulate(codeOut, symMod);
    ghost var points := B.Rows(symMod);
    carriers := new Complex32[nSts, S.SUBCARRIERS * nSym]((_, _) => ORIGIN);
    PilotAddSubcarMap(symMod, nSym, carriers);
    forall ss, x | 0 <= ss < nSts && 0 <= x < carriers.Length1
      ensures carriers[ss, x] == M.DirectPoint(coded, nSts, nSym, ss, x / S.SUBCARRIERS, x % S.SUBCARRIERS)
    {
      ChainPoint(coded, nSts, nSym, ss, x / S.SUBCARRIERS, x % S.SUBCARRIERS, rows[ss], points[ss]);
    }
  }

  lemma ChainPoint(coded: seq<int>, nSts: nat, nSym: nat, ss: nat, sym: nat, j: nat,
                   row: seq<int>, points: seq<Complex32>)
    requires M.Coded(coded, nSts, nSym) && ss < nSts && sym < nSym && j < S.SUBCARRIERS
    requires |row| == 1404 * nSym && |points| == 234 * nSym
    requires forall x :: 0 <= x < |row| ==> C.IsBit(row[x])
    requires forall x :: 0 <= x < |row| ==>
               T.CodedAt(M.Qam64(nSts), ss, x) < |coded| && row[x] == coded[T.CodedAt(M.Qam64(nSts), ss, x)]
    requires forall k :: 0 <= k < |points| ==> points[k] == RowPoint(row, k)
    ensures CarrierPoint(points, sym, j) == M.DirectPoint(coded, nSts, nSym, ss, sym, j)
  {
    hide T.CodedAt, M.DirectBit, M.SixBits, S.SubcarrierSlot;
    M.DataSlotBound(j);
    if S.SubcarrierSlot(j).Data? {
      var n := S.SubcarrierSlot(j).n;
      forall r | 0 <= r < 1404
        ensures M.DirectBit(coded, nSts, nSym, ss, sym, r) == row[sym * 1404 + r]
      {
        DirectBitInRow(coded, nSts, nSym, ss, sym, r);
      }
      assert points[n + sym * 234] == RowPoint(row, n + sym * 234);
    }
  }

  lemma DirectBitInRow(coded: seq<int>, nSts: nat, nSym: nat, ss: nat, sym: nat, r: nat)
    requires M.Coded(coded, nSts, nSym) && ss < nSts && sym < nSym && r < 1404
    ensures T.CodedAt(M.Qam64(nSts), ss, sym * 1404 + r) < |coded|
    ensures coded[T.CodedAt(M.Qam64(nSts), ss, sym * 1404 + r)] == M.DirectBit(coded, nSts, nSym, ss, sym, r)
  {
    hide T.CodedBit, T.CodedAt;
    T.CodedAtSymbol(M.Qam64(nSts), ss, sym, r);
    T.CodedBitInFrame(M.Qam64(nSts), ss, sym, r, nSym);
  }
}

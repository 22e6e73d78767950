/**
 The tone plan of a symbol, counted from the carrier frequency in the middle: subcarrier j
 is tone j - 128.
 */
module TonePlan {
  import opened ComplexNumbers
  import S = Subcarriers
  import M = SubcarrierMap

  /** The distance of subcarrier j from the carrier frequency. */
  function Distance(j: nat): (d: nat) {
    if j >= 128 then j - 128 else 128 - j
  }

  lemma Listed(list: seq<nat>, x: nat, i: nat)
    requires S.Increasing(list) && i < |list| && list[i] == x + 1
    ensures S.Passed(list, x) == i
  {
    S.PassedIs(list, x, i);
  }

  /** The pilots are the tones 11, 39, 75 and 103 on either side, numbered from the lowest
      frequency up. */
  lemma PilotTones(j: nat)
    requires j < S.SUBCARRIERS
    ensures S.SubcarrierSlot(j).Pilot? <==> Distance(j) in {11, 39, 75, 103}
    ensures S.SubcarrierSlot(j).Pilot? ==>
      S.SubcarrierSlot(j).p == match j case 25 => 0 case 53 => 1 case 89 => 2 case 117 => 3
                                       case 139 => 4 case 167 => 5 case 203 => 6 case _ => 7
  {
    hide S.Passed, S.Layout;
    S.Layouts();
    assert S.Increasing(S.PILOT_SUBCARRIERS) by { IncreasingLists(); }
    if i :| 0 <= i < 8 && S.PILOT_SUBCARRIERS[i] == j + 1 {
      Listed(S.PILOT_SUBCARRIERS, j, i);
    }
    PilotList(j);
  }

  lemma IncreasingLists()
    ensures S.Increasing(S.PILOT_SUBCARRIERS) && S.Increasing(S.ZERO_SUBCARRIERS)
    ensures forall i, k :: 0 <= i < 8 && 0 <= k < 14 ==> S.PILOT_SUBCARRIERS[i] != S.ZERO_SUBCARRIERS[k]
  {
    S.Layouts();
  }

  lemma PilotList(j: nat)
    ensures (exists i :: 0 <= i < 8 && S.PILOT_SUBCARRIERS[i] == j + 1) <==> Distance(j) in {11, 39, 75, 103}
  {
    var list := S.PILOT_SUBCARRIERS;
    assert list[0] == 26 && list[1] == 54 && list[2] == 90 && list[3] == 118;
    assert list[4] == 140 && list[5] == 168 && list[6] == 204 && list[7] == 232;
  }

  /** The zeros are the carrier frequency with its two neighbours, and the tones beyond 122. */
  lemma ZeroTones(j: nat)
    requires j < S.SUBCARRIERS
    ensures S.SubcarrierSlot(j).Zero? <==> Distance(j) <= 1 || Distance(j) > 122
  {
    hide S.Passed, S.Layout;
    S.Layouts();
    IncreasingLists();
    if i :| 0 <= i < 14 && S.ZERO_SUBCARRIERS[i] == j + 1 {
      Listed(S.ZERO_SUBCARRIERS, j, i);
    }
    ZeroList(j);
  }

  lemma ZeroList(j: nat)
    requires j < S.SUBCARRIERS
    ensures (exists i :: 0 <= i < 14 && S.ZERO_SUBCARRIERS[i] == j + 1) <==> Distance(j) <= 1 || Distance(j) > 122
  {
    var list := S.ZERO_SUBCARRIERS;
    assert list[0] == 1 && list[1] == 2 && list[2] == 3 && list[3] == 4 && list[4] == 5 && list[5] == 6;
    assert list[6] == 128 && list[7] == 129 && list[8] == 130 && list[9] == 252 && list[10] == 253;
    assert list[11] == 254 && list[12] == 255 && list[13] == 256;
  }

  /** What both programs put on the tones that carry no data: nothing on the zeros; on the
      pilots one, or minus one on the two pilots in the middle of the list, which the symbol
      number shifts by one place a symbol. */
  lemma FixedTones(coded: seq<int>, nSts: nat, nSym: nat, ss: nat, sym: nat, j: nat)
    requires M.Coded(coded, nSts, nSym) && ss < nSts && sym < nSym && j < S.SUBCARRIERS
    ensures Distance(j) <= 1 || Distance(j) > 122 ==> M.DirectPoint(coded, nSts, nSym, ss, sym, j) == Complex32(0, 0)
    ensures Distance(j) in {11, 39, 75, 103} ==>
      (S.SubcarrierSlot(j).Pilot? &&
       M.DirectPoint(coded, nSts, nSym, ss, sym, j)
       == Complex32(if (S.SubcarrierSlot(j).p + sym) % 8 in {3, 4} then -8192 else 8192, 0))
  {
    hide S.SubcarrierSlot, M.DirectData;
    PilotTones(j);
    ZeroTones(j);
    M.DataSlotBound(j);
    if S.SubcarrierSlot(j).Pilot? {
      var p := S.SubcarrierSlot(j).p;
      assert (p + sym % 8) % 8 == (p + sym) % 8;
      PilotSign((p + sym) % 8);
    }
  }

  lemma PilotSign(i: nat)
    requires i < 8
    ensures M.PILOT_VALUES[i] == Complex32(if i in {3, 4} then -8192 else 8192, 0)
  {
    assert i == 0 || i == 1 || i == 2 || i == 3 || i == 4 || i == 5 || i == 6 || i == 7;
  }
}

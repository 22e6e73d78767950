/**
 Which of the 256 subcarriers of a symbol carry pilots, zeros and data, and the layout
 of the lookup table, where a data subcarrier takes six entries and the others one.
 Positions in the four lists count from 1, as in the program.
 */
module Subcarriers {

  datatype Slot = Pilot(p: nat) | Zero | Data(n: nat)

  // Subcarrier positions, used by PilotAdd_SubcarMap.
  const PILOT_SUBCARRIERS: seq<nat> := [26, 54, 90, 118, 140, 168, 204, 232]
  const ZERO_SUBCARRIERS: seq<nat> := [1, 2, 3, 4, 5, 6, 128, 129, 130, 252, 253, 254, 255, 256]

  // Table positions, used by PilotAdd_table.
  const PILOT_ENTRIES: seq<nat> := [121, 284, 495, 658, 770, 933, 1144, 1307]
  const ZERO_ENTRIES: seq<nat> := [1, 2, 3, 4, 5, 6, 713, 714, 715, 1422, 1423, 1424, 1425, 1426]

  const SUBCARRIERS: nat := 256
  const ENTRIES: nat := 1426

  ghost predicate Increasing(list: seq<nat>) {
    forall i, j :: 0 <= i < j < |list| ==> list[i] < list[j]
  }

  /** How many positions of the list lie at or before x. */
  function Passed(list: seq<nat>, x: nat): (p: nat)
    ensures p <= |list|
  {
    if |list| == 0 then 0
    else Passed(list[..|list| - 1], x) + if list[|list| - 1] <= x then 1 else 0
  }

  /** In an increasing list, a scan pointer that has passed exactly the positions at or
      before x is the number of those positions. */
  lemma {:induction false} PassedIs(list: seq<nat>, x: nat, p: nat)
    requires Increasing(list) && p <= |list|
    requires p > 0 ==> list[p - 1] <= x
    requires p < |list| ==> x < list[p]
    ensures Passed(list, x) == p
  {
    if |list| > 0 {
      var front := list[..|list| - 1];
      if p < |list| {
        PassedIs(front, x, p);
      } else {
        PassedIs(front, x, p - 1);
      }
    }
  }

  lemma {:induction false} PassedBounds(list: seq<nat>, x: nat)
    requires Increasing(list)
    ensures var p := Passed(list, x);
            (p > 0 ==> list[p - 1] <= x) && (p < |list| ==> x < list[p])
  {
    if |list| > 0 {
      PassedBounds(list[..|list| - 1], x);
    }
  }

  /** Moving on by one position passes one more entry exactly when the position is listed. */
  lemma PassedStep(list: seq<nat>, x: nat)
    requires Increasing(list)
    ensures var p := Passed(list, x);
            Passed(list, x + 1) == if p < |list| && list[p] == x + 1 then p + 1 else p
  {
    var p := Passed(list, x);
    PassedBounds(list, x);
    PassedIs(list, x + 1, if p < |list| && list[p] == x + 1 then p + 1 else p);
  }

  /** Two increasing lists of positions from 1 on, with no position in both. */
  ghost predicate Layout(pilots: seq<nat>, zeros: seq<nat>) {
    && Increasing(pilots) && Increasing(zeros)
    && (forall i :: 0 <= i < |pilots| ==> pilots[i] > 0)
    && (forall i :: 0 <= i < |zeros| ==> zeros[i] > 0)
    && (forall i, j :: 0 <= i < |pilots| && 0 <= j < |zeros| ==> pilots[i] != zeros[j])
  }

  lemma {:induction false} RoomForData(pilots: seq<nat>, zeros: seq<nat>, x: nat)
    requires Layout(pilots, zeros)
    ensures Passed(pilots, x) + Passed(zeros, x) <= x
  {
    if x == 0 {
      PassedIs(pilots, 0, 0);
      PassedIs(zeros, 0, 0);
    } else {
      hide Passed;
      var p, z := Passed(pilots, x - 1), Passed(zeros, x - 1);
      RoomForData(pilots, zeros, x - 1);
      PassedStep(pilots, x - 1);
      PassedStep(zeros, x - 1);
      assert p < |pilots| && z < |zeros| ==> pilots[p] != zeros[z];
    }
  }

  /** What stands at position x (from 0): a pilot, a zero, or the next data item. */
  function SlotOf(pilots: seq<nat>, zeros: seq<nat>, x: nat): Slot
    requires Layout(pilots, zeros)
  {
    RoomForData(pilots, zeros, x);
    var p, z := Passed(pilots, x), Passed(zeros, x);
    if p < |pilots| && pilots[p] == x + 1 then Pilot(p)
    else if z < |zeros| && zeros[z] == x + 1 then Zero
    else Data(x - p - z)
  }

  lemma ScanStart(pilots: seq<nat>, zeros: seq<nat>)
    requires Layout(pilots, zeros)
    ensures Passed(pilots, 0) == 0 && Passed(zeros, 0) == 0
  {
    PassedIs(pilots, 0, 0);
    PassedIs(zeros, 0, 0);
  }

  /** One step of a scan whose pointers stand at the next pilot and the next zero: the
      branch it takes is the slot of the position, and it moves one pointer or none. */
  lemma ScanStep(pilots: seq<nat>, zeros: seq<nat>, x: nat)
    requires Layout(pilots, zeros)
    ensures var p, z := Passed(pilots, x), Passed(zeros, x);
            p + z <= x &&
            if p < |pilots| && x + 1 == pilots[p] then
              SlotOf(pilots, zeros, x) == Pilot(p) && Passed(pilots, x + 1) == p + 1 && Passed(zeros, x + 1) == z
            else if z < |zeros| && x + 1 == zeros[z] then
              SlotOf(pilots, zeros, x) == Zero && Passed(pilots, x + 1) == p && Passed(zeros, x + 1) == z + 1
            else
              SlotOf(pilots, zeros, x) == Data(x - p - z) && Passed(pilots, x + 1) == p && Passed(zeros, x + 1) == z
  {
    hide Passed;
    RoomForData(pilots, zeros, x);
    PassedStep(pilots, x);
    PassedStep(zeros, x);
  }

  /** The number of data items before position x. */
  function DataBefore(pilots: seq<nat>, zeros: seq<nat>, x: nat): nat
    requires Layout(pilots, zeros)
  {
    RoomForData(pilots, zeros, x);
    x - Passed(pilots, x) - Passed(zeros, x)
  }

  lemma DataBeforeStep(pilots: seq<nat>, zeros: seq<nat>, x: nat)
    requires Layout(pilots, zeros)
    ensures DataBefore(pilots, zeros, x + 1)
         == DataBefore(pilots, zeros, x) + if SlotOf(pilots, zeros, x).Data? then 1 else 0
  {
    PassedStep(pilots, x);
    PassedStep(zeros, x);
  }

  lemma {:induction false} DataBeforeMonotone(pilots: seq<nat>, zeros: seq<nat>, x: nat, y: nat)
    requires Layout(pilots, zeros) && x <= y
    ensures DataBefore(pilots, zeros, x) <= DataBefore(pilots, zeros, y)
    decreases y - x
  {
    if x < y {
      DataBeforeStep(pilots, zeros, x);
      DataBeforeMonotone(pilots, zeros, x + 1, y);
    }
  }

  // ---------------------------------------------------------------------------
  // The two layouts of a symbol
  // ---------------------------------------------------------------------------

  lemma Layouts()
    ensures Layout(PILOT_SUBCARRIERS, ZERO_SUBCARRIERS)
    ensures Layout(PILOT_ENTRIES, ZERO_ENTRIES)
  {
    ListsRise();
    RisingIsIncreasing(PILOT_SUBCARRIERS);
    RisingIsIncreasing(ZERO_SUBCARRIERS);
    RisingIsIncreasing(PILOT_ENTRIES);
    RisingIsIncreasing(ZERO_ENTRIES);
    InGapsIsDisjoint();
  }

  /** Pilots lie in the two gaps that the zeros leave. */
  predicate InGap(x: nat, a: nat, b: nat, c: nat, d: nat) {
    a < x < b || c < x < d
  }

  lemma InGapsIsDisjoint()
    ensures forall i, j :: 0 <= i < 8 && 0 <= j < 14 ==> PILOT_SUBCARRIERS[i] != ZERO_SUBCARRIERS[j]
    ensures forall i, j :: 0 <= i < 8 && 0 <= j < 14 ==> PILOT_ENTRIES[i] != ZERO_ENTRIES[j]
  {
    forall i | 0 <= i < 8
      ensures InGap(PILOT_SUBCARRIERS[i], 6, 128, 130, 252) && InGap(PILOT_ENTRIES[i], 6, 713, 715, 1422)
    {
      assert i == 0 || i == 1 || i == 2 || i == 3 || i == 4 || i == 5 || i == 6 || i == 7;
    }
    forall j | 0 <= j < 14
      ensures !InGap(ZERO_SUBCARRIERS[j], 6, 128, 130, 252) && !InGap(ZERO_ENTRIES[j], 6, 713, 715, 1422)
    {
      assert j == 0 || j == 1 || j == 2 || j == 3 || j == 4 || j == 5 || j == 6 || j == 7
          || j == 8 || j == 9 || j == 10 || j == 11 || j == 12 || j == 13;
    }
  }

  ghost predicate Step(list: seq<nat>, i: int) {
    0 < i < |list| && 0 < list[i - 1] < list[i]
  }

  lemma ListsRise()
    ensures forall i :: 0 < i < 8 ==> Step(PILOT_SUBCARRIERS, i) && Step(PILOT_ENTRIES, i)
    ensures forall i :: 0 < i < 14 ==> Step(ZERO_SUBCARRIERS, i) && Step(ZERO_ENTRIES, i)
  {
    forall i | 0 < i < 8
      ensures Step(PILOT_SUBCARRIERS, i) && Step(PILOT_ENTRIES, i)
    {
      assert i == 1 || i == 2 || i == 3 || i == 4 || i == 5 || i == 6 || i == 7;
    }
    forall i | 0 < i < 14
      ensures Step(ZERO_SUBCARRIERS, i) && Step(ZERO_ENTRIES, i)
    {
      assert i == 1 || i == 2 || i == 3 || i == 4 || i == 5 || i == 6 || i == 7
          || i == 8 || i == 9 || i == 10 || i == 11 || i == 12 || i == 13;
    }
  }

  lemma RisingIsIncreasing(list: seq<nat>)
    requires |list| > 1 && forall i :: 0 < i < |list| ==> Step(list, i)
    ensures Increasing(list) && forall i :: 0 <= i < |list| ==> list[i] > 0
  {
    forall i, j | 0 <= i < j < |list|
      ensures list[i] < list[j]
    {
      RisingPair(list, i, j);
    }
    assert Step(list, 1);
  }

  lemma {:induction false} RisingPair(list: seq<nat>, i: nat, j: nat)
    requires i < j < |list| && forall i :: 0 < i < |list| ==> Step(list, i)
    ensures list[i] < list[j]
  {
    assert Step(list, j);
    if i < j - 1 {
      RisingPair(list, i, j - 1);
    }
  }

  /** The number of data subcarriers of a symbol before subcarrier j. */
  function DataSubcarriersBefore(j: nat): nat {
    Layouts();
    DataBefore(PILOT_SUBCARRIERS, ZERO_SUBCARRIERS, j)
  }

  /** The number of data entries of a symbol before entry e. */
  function DataEntriesBefore(e: nat): nat {
    Layouts();
    DataBefore(PILOT_ENTRIES, ZERO_ENTRIES, e)
  }

  /** What subcarrier j of a symbol carries. */
  function SubcarrierSlot(j: nat): Slot {
    Layouts();
    SlotOf(PILOT_SUBCARRIERS, ZERO_SUBCARRIERS, j)
  }

  /** What entry e of the table of one symbol stands for. */
  function EntrySlot(e: nat): Slot {
    Layouts();
    SlotOf(PILOT_ENTRIES, ZERO_ENTRIES, e)
  }

  /** The first table entry of subcarrier j: data subcarriers take six entries. */
  function Offset(j: nat): nat {
    j + 5 * DataSubcarriersBefore(j)
  }

  /** How many entries subcarrier j takes. */
  function Width(j: nat): nat {
    if SubcarrierSlot(j).Data? then 6 else 1
  }

  lemma OffsetStep(j: nat)
    ensures Offset(j + 1) == Offset(j) + Width(j)
  {
    Layouts();
    DataBeforeStep(PILOT_SUBCARRIERS, ZERO_SUBCARRIERS, j);
  }

  lemma {:induction false} OffsetIncreasing(i: nat, j: nat)
    requires i <= j
    ensures Offset(j) >= Offset(i) + (j - i)
    decreases j - i
  {
    if i < j {
      OffsetStep(i);
      OffsetIncreasing(i + 1, j);
    }
  }

  /** Every pilot stands in the table where its subcarrier begins. */
  lemma PilotEntry(p: nat)
    requires p < |PILOT_SUBCARRIERS|
    ensures PILOT_ENTRIES[p] == Offset(PILOT_SUBCARRIERS[p] - 1) + 1
  {
    Layouts();
    var j := PILOT_SUBCARRIERS[p] - 1;
    PassedIs(PILOT_SUBCARRIERS, j, p);
    PassedIs(ZERO_SUBCARRIERS, j, if p < 4 then 6 else 9);
    assert p == 0 || p == 1 || p == 2 || p == 3 || p == 4 || p == 5 || p == 6 || p == 7;
  }

  /** Every zero stands in the table where its subcarrier begins. */
  lemma ZeroEntry(z: nat)
    requires z < |ZERO_SUBCARRIERS|
    ensures ZERO_ENTRIES[z] == Offset(ZERO_SUBCARRIERS[z] - 1) + 1
  {
    Layouts();
    var j := ZERO_SUBCARRIERS[z] - 1;
    PassedIs(ZERO_SUBCARRIERS, j, z);
    PassedIs(PILOT_SUBCARRIERS, j, if z < 6 then 0 else if z < 9 then 4 else 8);
    assert z == 0 || z == 1 || z == 2 || z == 3 || z == 4 || z == 5 || z == 6 || z == 7
        || z == 8 || z == 9 || z == 10 || z == 11 || z == 12 || z == 13;
  }

  /** A symbol fills exactly 256 subcarriers, 234 of them data, and 1426 entries. */
  lemma SymbolFull()
    ensures DataSubcarriersBefore(SUBCARRIERS) == 234
    ensures Offset(SUBCARRIERS) == ENTRIES
    ensures DataEntriesBefore(ENTRIES) == 1404
  {
    Layouts();
    PassedIs(PILOT_SUBCARRIERS, SUBCARRIERS, 8);
    PassedIs(ZERO_SUBCARRIERS, SUBCARRIERS, 14);
    PassedIs(PILOT_ENTRIES, ENTRIES, 8);
    PassedIs(ZERO_ENTRIES, ENTRIES, 14);
  }

  lemma ListedTakesOneEntry(j: nat)
    ensures j + 1 in PILOT_SUBCARRIERS ==> Width(j) == 1
    ensures j + 1 in ZERO_SUBCARRIERS ==> Width(j) == 1
  {
    Layouts();
    if p :| 0 <= p < |PILOT_SUBCARRIERS| && PILOT_SUBCARRIERS[p] == j + 1 {
      PassedIs(PILOT_SUBCARRIERS, j, p);
    }
    if z :| 0 <= z < |ZERO_SUBCARRIERS| && ZERO_SUBCARRIERS[z] == j + 1 {
      PassedIs(ZERO_SUBCARRIERS, j, z);
    }
  }

  /** A list of subcarriers and the list of the entries where they begin. */
  ghost predicate Matching(entries: seq<nat>, carriers: seq<nat>) {
    && Increasing(entries) && Increasing(carriers) && |entries| == |carriers|
    && forall i :: 0 <= i < |carriers| ==> carriers[i] > 0 && entries[i] == Offset(carriers[i] - 1) + 1
  }

  lemma ListsMatch()
    ensures Matching(PILOT_ENTRIES, PILOT_SUBCARRIERS)
    ensures Matching(ZERO_ENTRIES, ZERO_SUBCARRIERS)
  {
    hide Offset;
    Layouts();
    forall p | 0 <= p < 8 ensures PILOT_ENTRIES[p] == Offset(PILOT_SUBCARRIERS[p] - 1) + 1 { PilotEntry(p); }
    forall z | 0 <= z < 14 ensures ZERO_ENTRIES[z] == Offset(ZERO_SUBCARRIERS[z] - 1) + 1 { ZeroEntry(z); }
  }

  /** At each entry of subcarrier j as many listed entries have passed as listed
      subcarriers, and the next listed entry is this one just when it is the first
      entry of a listed subcarrier. */
  lemma PassedAgree(entries: seq<nat>, carriers: seq<nat>, j: nat, b: nat)
    requires Matching(entries, carriers)
    requires b < Width(j) && (j + 1 in carriers ==> Width(j) == 1)
    ensures var p := Passed(carriers, j);
            Passed(entries, Offset(j) + b) == p &&
            (p < |carriers| ==> (entries[p] == Offset(j) + b + 1 <==> carriers[p] == j + 1))
  {
    hide Offset, Width, Passed;
    var p := Passed(carriers, j);
    PassedBounds(carriers, j);
    OffsetStep(j);
    if p > 0 {
      OffsetIncreasing(carriers[p - 1], j);
      OffsetStep(carriers[p - 1] - 1);
      assert Width(carriers[p - 1] - 1) >= 1 by { WidthPositive(carriers[p - 1] - 1); }
    }
    if p < |carriers| && carriers[p] != j + 1 {
      OffsetIncreasing(j + 1, carriers[p] - 1);
    }
    PassedIs(entries, Offset(j) + b, p);
  }

  lemma WidthPositive(j: nat)
    ensures Width(j) >= 1
  {
  }

  /** The table layout is the subcarrier layout with each data subcarrier blown up to
      six entries: no group of six is split by a pilot, a zero or the symbol's end. */
  lemma EntriesOfSubcarrier(j: nat, b: nat)
    requires j < SUBCARRIERS && b < Width(j)
    ensures Offset(j) + b < ENTRIES
    ensures EntrySlot(Offset(j) + b) ==
            match SubcarrierSlot(j)
            case Data(n) => Data(6 * n + b)
            case s => s
  {
    hide Passed, Layout, Matching;
    Layouts();
    ListsMatch();
    SymbolFull();
    OffsetStep(j);
    OffsetIncreasing(j + 1, SUBCARRIERS);
    ListedTakesOneEntry(j);
    PassedAgree(PILOT_ENTRIES, PILOT_SUBCARRIERS, j, b);
    PassedAgree(ZERO_ENTRIES, ZERO_SUBCARRIERS, j, b);
  }
}

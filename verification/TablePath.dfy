/**
 The precomputed-table path of modulate_opt.c for 64-QAM: the interleaving table with
 pilots and zeros written between its entries, and the loop that maps coded bits to
 subcarriers by walking along it.
 */
module TablePath {
  import opened ComplexNumbers
  import B = Buffers
  import C = Constellation
  import S = Subcarriers
  import T = Transmitter
  import L = InterleaverLoops
  import M = SubcarrierMap

  /** What PilotAdd_table writes at entry e of symbol sym, given the entries of the
      stream without pilots. */
  function Entry(row: seq<int>, sym: nat, e: nat): int
    requires |row| == 1404 && e < S.ENTRIES
  {
    DataEntryBound(e);
    match S.EntrySlot(e)
    case Pilot(p) => M.PILOT_CODES[(p + sym % 8) % 8]
    case Zero => M.ZERO_CODE
    case Data(n) => row[n]
  }

  lemma DataEntryBound(e: nat)
    requires e < S.ENTRIES
    ensures S.EntrySlot(e).Data? ==> S.EntrySlot(e).n < 1404
    ensures S.EntrySlot(e).Pilot? ==> S.EntrySlot(e).p < 8
  {
    S.Layouts();
    S.SymbolFull();
    S.DataBeforeStep(S.PILOT_ENTRIES, S.ZERO_ENTRIES, e);
    S.DataBeforeMonotone(S.PILOT_ENTRIES, S.ZERO_ENTRIES, e + 1, S.ENTRIES);
  }

  /** Every row of the table up to `count` entries holds the interleaving table of its
      stream with the pilots and zeros of each symbol in between. */
  ghost predicate Written(rows: seq<seq<int>>, codeOut: array2<int>, count: nat)
    requires |rows| == codeOut.Length0 && count <= codeOut.Length1
    requires forall ss :: 0 <= ss < |rows| ==> |rows[ss]| == 1404
    reads codeOut
  {
    forall tx, x :: 0 <= tx < codeOut.Length0 && 0 <= x < count ==>
      codeOut[tx, x] == Entry(rows[tx], x / S.ENTRIES, x % S.ENTRIES)
  }

  /** One symbol of PilotAdd_table: a scan with pointers p and z to the next pilot and
      the next zero and a counter n of data entries. */
  method WriteSymbol(codeIn: array2<int>, codeOut: array2<int>, i: nat)
    requires codeIn != codeOut && codeIn.Length0 == codeOut.Length0
    requires codeIn.Length1 == 1404 && S.ENTRIES * (i + 1) <= codeOut.Length1
    requires Written(B.Rows(codeIn), codeOut, S.ENTRIES * i)
    modifies codeOut
    ensures Written(B.Rows(codeIn), codeOut, S.ENTRIES * (i + 1))
  {
    hide Entry, S.Passed, S.SlotOf, S.EntrySlot, S.Layout;
    S.Layouts();
    ghost var rows := B.Rows(codeIn);
    var n, p, z := 0, 0, 0;
    S.ScanStart(S.PILOT_ENTRIES, S.ZERO_ENTRIES);
    for j := 0 to S.ENTRIES
      invariant p == S.Passed(S.PILOT_ENTRIES, j) && z == S.Passed(S.ZERO_ENTRIES, j)
      invariant n + p + z == j
      invariant Written(rows, codeOut, S.ENTRIES * i + j)
    {
      S.ScanStep(S.PILOT_ENTRIES, S.ZERO_ENTRIES, j);
      EntrySlotIs(j);
      var x := j + i * S.ENTRIES;
      assert x / S.ENTRIES == i && x % S.ENTRIES == j;
      forall tx | 0 <= tx < codeOut.Length0
        ensures match S.EntrySlot(j)
                case Pilot(p) => (p < 8 && Entry(rows[tx], i, j) == M.PILOT_CODES[(p + i % 8) % 8])
                case Zero => Entry(rows[tx], i, j) == M.ZERO_CODE
                case Data(n) => (n < 1404 && Entry(rows[tx], i, j) == rows[tx][n])
      {
        EntryAt(rows[tx], i, j);
      }
      if p < 8 && j + 1 == S.PILOT_ENTRIES[p] {
        B.FillColumn(codeOut, x, M.PILOT_CODES[(p + i % 8) % 8]);
        p := p + 1;
      } else if z < 14 && j + 1 == S.ZERO_ENTRIES[z] {
        B.FillColumn(codeOut, x, M.ZERO_CODE);
        z := z + 1;
      } else {
        // n < code_inLength holds here: a symbol has exactly 1404 data entries
        DataEntryBound(j);
        B.CopyColumn(codeIn, n, codeOut, x);
        n := n + 1;
      }
    }
  }

  /** PilotAdd_table for all symbols. */
  method PilotAddTable(codeIn: array2<int>, codeOut: array2<int>, nSym: nat)
    requires codeIn != codeOut && codeIn.Length0 == codeOut.Length0
    requires codeIn.Length1 == 1404 && codeOut.Length1 == S.ENTRIES * nSym
    modifies codeOut
    ensures Written(B.Rows(codeIn), codeOut, S.ENTRIES * nSym)
  {
    for i := 0 to nSym
      invariant Written(B.Rows(codeIn), codeOut, S.ENTRIES * i)
    {
      WriteSymbol(codeIn, codeOut, i);
    }
  }

  lemma EntrySlotIs(e: nat)
    ensures S.Layout(S.PILOT_ENTRIES, S.ZERO_ENTRIES)
    ensures S.EntrySlot(e) == S.SlotOf(S.PILOT_ENTRIES, S.ZERO_ENTRIES, e)
  {
    S.Layouts();
  }

  lemma EntryAt(row: seq<int>, sym: nat, e: nat)
    requires |row| == 1404 && e < S.ENTRIES
    ensures match S.EntrySlot(e)
            case Pilot(p) => p < 8 && Entry(row, sym, e) == M.PILOT_CODES[(p + sym % 8) % 8]
            case Zero => Entry(row, sym, e) == M.ZERO_CODE
            case Data(n) => n < 1404 && Entry(row, sym, e) == row[n]
  {
    DataEntryBound(e);
  }

  // ---------------------------------------------------------------------------
  // The mapping loop
  // ---------------------------------------------------------------------------

  /** The interleaving table of one stream, without pilots. */
  function StreamRow(nSts: nat, ss: nat): (row: seq<int>)
    requires 1 <= nSts <= 8 && ss < nSts
    ensures |row| == 1404
    ensures forall r :: 0 <= r < 1404 ==> row[r] == T.TableEntry(M.Qam64(nSts), ss, r)
  {
    seq(1404, r requires 0 <= r < 1404 => T.TableEntry(M.Qam64(nSts), ss, r))
  }

  /** The finished table of all streams and symbols. */
  ghost predicate IsTable(table: array2<int>, nSts: nat, nSym: nat)
    reads table
  {
    1 <= nSts <= 8 && table.Length0 == nSts && table.Length1 == S.ENTRIES * nSym &&
    forall tx, x :: 0 <= tx < nSts && 0 <= x < table.Length1 ==>
      table[tx, x] == Entry(StreamRow(nSts, tx), x / S.ENTRIES, x % S.ENTRIES)
  }

  ghost predicate IsMappingTable(mapping: array<Complex32>)
    reads mapping
  {
    mapping.Length == 64 && forall i :: 0 <= i < 64 ==> mapping[i] == C.Point(i / 8, i % 8)
  }

  /** The entries of subcarrier j of symbol sym: a code from 6000 on, or six indices of
      coded bits, all of the same symbol. */
  lemma EntriesAt(nSts: nat, ss: nat, sym: nat, j: nat, b: nat)
    requires 1 <= nSts <= 8 && ss < nSts && j < S.SUBCARRIERS && b < S.Width(j)
    ensures S.Offset(j) + b < S.ENTRIES
    ensures var e := Entry(StreamRow(nSts, ss), sym, S.Offset(j) + b);
            match S.SubcarrierSlot(j)
            case Pilot(p) => p < 8 && e == M.PILOT_CODES[(p + sym % 8) % 8] >= M.SENTINEL
            case Zero => e == M.ZERO_CODE
            case Data(n) =>
              (n < 234 && e == T.TableEntry(M.Qam64(nSts), ss, 6 * n + b) && (nSts <= 4 ==> e < M.SENTINEL))
  {
    hide S.SubcarrierSlot, S.EntrySlot, S.Offset, S.Width, Entry, T.TableEntry;
    S.EntriesOfSubcarrier(j, b);
    M.DataSlotBound(j);
    EntryAt(StreamRow(nSts, ss), sym, S.Offset(j) + b);
    if S.SubcarrierSlot(j).Pilot? {
      CodesAreSentinels((S.SubcarrierSlot(j).p + sym % 8) % 8);
    }
    WidthOfSlot(j);
  }

  lemma WidthOfSlot(j: nat)
    ensures S.Width(j) == if S.SubcarrierSlot(j).Data? then 6 else 1
  {
  }

  lemma CodesAreSentinels(i: nat)
    requires i < 8
    ensures M.SENTINEL <= M.PILOT_CODES[i] <= M.SENTINEL + 2
  {
    assert i == 0 || i == 1 || i == 2 || i == 3 || i == 4 || i == 5 || i == 6 || i == 7;
  }

  /** The inner loop over six entries: each names a coded bit, N_CBPS further on past the
      first symbol, and the bits are shifted into the address of the mapping table. */
  method LookUpAddress(output: array<int>, table: array2<int>, nSts: nat, nSym: nat,
                       i: nat, ghost sym: nat, ghost q: nat, j: nat) returns (addr: nat)
    requires M.Coded(output[..], nSts, nSym) && i < nSts && sym < nSym
    requires IsTable(table, nSts, nSym)
    requires q < S.SUBCARRIERS && S.SubcarrierSlot(q).Data? && S.SubcarrierSlot(q).n < 234
    requires j == S.ENTRIES * sym + S.Offset(q)
    ensures addr < 64
    ensures C.Point(addr / 8, addr % 8) == M.TableData(output[..], nSts, nSym, i, sym, S.SubcarrierSlot(q).n)
  {
    hide C.Value, C.Point, M.TableBit, M.TableData, S.SubcarrierSlot, S.Offset, S.Width, Entry, T.TableEntry;
    ghost var coded, n := output[..], S.SubcarrierSlot(q).n;
    ghost var bits: seq<int> := [];
    WidthOfSlot(q);
    addr := 0;
    C.ValueOfNone();
    for k := 0 to 6
      invariant |bits| == k && addr == C.Value(bits)
      invariant forall b :: 0 <= b < k ==> bits[b] == M.TableBit(coded, nSts, nSym, i, sym, 6 * n + b)
    {
      EntriesAt(nSts, i, sym, q, k);
      assert (j + k) / S.ENTRIES == sym && (j + k) % S.ENTRIES == S.Offset(q) + k;
      var e := table[i, j + k];
      var shift := if j >= S.ENTRIES then 1404 * nSts else 0;
      TableBitRead(coded, nSts, nSym, i, sym, 6 * n + k);
      C.ValueAppend(bits, output[e + shift] % 2);
      addr := 2 * addr + output[e + shift] % 2;
      bits := bits + [output[e + shift] % 2];
    }
    AddressIsPoint(bits, coded, nSts, nSym, i, sym, n);
  }

  lemma AddressIsPoint(bits: seq<int>, coded: seq<int>, nSts: nat, nSym: nat, ss: nat, sym: nat, n: nat)
    requires M.Coded(coded, nSts, nSym) && ss < nSts && sym < nSym && n < 234
    requires |bits| == 6 && forall b :: 0 <= b < 6 ==> bits[b] == M.TableBit(coded, nSts, nSym, ss, sym, 6 * n + b)
    ensures 0 <= C.Value(bits) < 64
    ensures C.Point(C.Value(bits) / 8, C.Value(bits) % 8) == M.TableData(coded, nSts, nSym, ss, sym, n)
  {
    hide C.Value, C.Point, M.TableBit, M.SixBits;
    var r := 6 * n;
    assert forall b :: 0 <= b < 6 ==> bits[b] == M.TableBit(coded, nSts, nSym, ss, sym, r + b);
    assert bits == [bits[0], bits[1], bits[2], bits[3], bits[4], bits[5]];
    SixBitAddress(bits[0], bits[1], bits[2], bits[3], bits[4], bits[5]);
  }

  lemma SixBitAddress(a: int, b: int, c: int, d: int, e: int, f: int)
    requires C.IsBit(a) && C.IsBit(b) && C.IsBit(c) && C.IsBit(d) && C.IsBit(e) && C.IsBit(f)
    ensures var v := C.Value([a, b, c, d, e, f]);
            0 <= v < 64 && C.Point(v / 8, v % 8) == M.SixBits(a, b, c, d, e, f)
  {
    hide C.Value, C.Point;
    C.ValueOfSix(a, b, c, d, e, f);
    SplitAddress(C.Value3(a, b, c), C.Value3(d, e, f));
  }

  lemma SplitAddress(u: nat, v: nat)
    requires u < 8 && v < 8
    ensures (8 * u + v) / 8 == u && (8 * u + v) % 8 == v && 8 * u + v < 64
  {
  }

  lemma TableBitRead(coded: seq<int>, nSts: nat, nSym: nat, ss: nat, sym: nat, r: nat)
    requires M.Coded(coded, nSts, nSym) && ss < nSts && sym < nSym && r < 1404
    ensures var i := T.TableEntry(M.Qam64(nSts), ss, r) + if sym >= 1 then 1404 * nSts else 0;
            i < |coded| && coded[i] % 2 == M.TableBit(coded, nSts, nSym, ss, sym, r)
  {
    hide T.TableEntry;
    M.OneShiftInFrame(nSts, nSym, sym);
  }

  lemma PointOfSlot(coded: seq<int>, nSts: nat, nSym: nat, ss: nat, sym: nat, j: nat)
    requires M.Coded(coded, nSts, nSym) && nSts <= 4 && ss < nSts && sym < nSym && j < S.SUBCARRIERS
    ensures match S.SubcarrierSlot(j)
            case Pilot(p) =>
              (p < 8 &&
               M.TablePoint(coded, nSts, nSym, ss, sym, j)
               == M.PILOT_TYPE[M.PILOT_CODES[(p + sym % 8) % 8] - M.SENTINEL])
            case Zero => M.TablePoint(coded, nSts, nSym, ss, sym, j) == M.PILOT_TYPE[M.ZERO_CODE - M.SENTINEL]
            case Data(n) =>
              (n < 234 &&
               M.TablePoint(coded, nSts, nSym, ss, sym, j) == M.TableData(coded, nSts, nSym, ss, sym, n))
  {
    hide S.SubcarrierSlot, M.TableData;
    M.DataSlotBound(j);
  }

  lemma WalkStart()
    ensures S.Offset(0) == 0
  {
    hide S.Passed;
    M.NothingBeforeStart();
  }

  /** After the last subcarrier of a symbol the walk stands at the next symbol. */
  lemma NextSubcarrier(q: nat)
    requires q < S.SUBCARRIERS
    ensures S.Offset(q + 1) == S.Offset(q) + S.Width(q)
    ensures if q + 1 == S.SUBCARRIERS then S.Offset(q + 1) == S.ENTRIES else S.Offset(q + 1) < S.ENTRIES
  {
    hide S.Offset, S.Width;
    S.OffsetStep(q);
    S.SymbolFull();
    S.OffsetIncreasing(q + 1, S.SUBCARRIERS);
  }

  /** The segment of the flat map that belongs to stream i. */
  ghost predicate StreamMapped(symMod: seq<Complex32>, base: nat, coded: seq<int>, nSts: nat, nSym: nat, i: nat)
    requires M.Coded(coded, nSts, nSym) && nSts <= 4 && i < nSts && base + S.SUBCARRIERS * nSym <= |symMod|
  {
    forall x :: base <= x < base + S.SUBCARRIERS * nSym ==>
      symMod[x] == M.TablePoint(coded, nSts, nSym, i, (x - base) / S.SUBCARRIERS, (x - base) % S.SUBCARRIERS)
  }

  /** Point t of a stream's segment of the flat map is in place. */
  ghost predicate PointDone(symMod: seq<Complex32>, base: nat, coded: seq<int>, nSts: nat, nSym: nat, i: nat, t: nat)
    requires M.Coded(coded, nSts, nSym) && i < nSts && t < S.SUBCARRIERS * nSym && base + t < |symMod|
  {
    nSts <= 4 ==> symMod[base + t] == M.TablePoint(coded, nSts, nSym, i, t / S.SUBCARRIERS, t % S.SUBCARRIERS)
  }

  /** With five or more streams the walk of the first stream is still in front of, or at, the
      group whose head it will take for a code. */
  ghost predicate BeforeStray(nSts: nat, sym: nat, q: nat) {
    5 <= nSts <= 8 ==> sym == 0 && q < S.SUBCARRIERS && S.DataSubcarriersBefore(q) <= M.StrayGroup(nSts)
  }

  lemma StrayStart(nSts: nat)
    ensures BeforeStray(nSts, 0, 0)
  {
    M.NothingBeforeStart();
  }

  lemma StrayNext(nSts: nat, q: nat)
    requires 5 <= nSts <= 8 && BeforeStray(nSts, 0, q)
    ensures match S.SubcarrierSlot(q)
      case Data(n) =>
        (n <= M.StrayGroup(nSts)
         && (if n < M.StrayGroup(nSts) then T.TableEntry(M.Qam64(nSts), 0, 6 * n) < M.SENTINEL
             else T.TableEntry(M.Qam64(nSts), 0, 6 * n) > M.SENTINEL + 2)
         && (n < M.StrayGroup(nSts) ==> q + 1 < S.SUBCARRIERS && BeforeStray(nSts, 0, q + 1)))
      case _ => q + 1 < S.SUBCARRIERS && BeforeStray(nSts, 0, q + 1)
  {
    hide S.DataBefore, S.SlotOf, T.TableEntry;
    S.Layouts();
    S.SymbolFull();
    S.DataBeforeStep(S.PILOT_SUBCARRIERS, S.ZERO_SUBCARRIERS, q);
    DataCount(q);
    if S.SubcarrierSlot(q).Data? && S.SubcarrierSlot(q).n <= M.StrayGroup(nSts) {
      M.StrayHead(nSts, S.SubcarrierSlot(q).n);
    }
  }

  lemma DataCount(q: nat)
    ensures S.SubcarrierSlot(q).Data? ==> S.SubcarrierSlot(q).n == S.DataSubcarriersBefore(q)
  {
    S.Layouts();
  }

  /** The walk along one stream's row: j advances by six entries or by one, t by one.  The
      result is false where the program reads outside pilot_type; that happens in the first
      stream if it happens at all. */
  method MapStream(output: array<int>, table: array2<int>, mapping: array<Complex32>,
                   nSts: nat, nSym: nat, i: nat, base: nat, symMod: array<Complex32>) returns (inside: bool)
    requires M.Coded(output[..], nSts, nSym) && i < nSts && (nSts <= 4 || i == 0 || nSym == 0)
    requires IsTable(table, nSts, nSym) && IsMappingTable(mapping)
    requires base + S.SUBCARRIERS * nSym <= symMod.Length && symMod != mapping
    modifies symMod
    ensures inside <==> nSts <= 4 || nSym == 0
    ensures nSts <= 4 ==> StreamMapped(symMod[..], base, output[..], nSts, nSym, i)
    ensures B.Outside(symMod[..], old(symMod[..]), base, base + S.SUBCARRIERS * nSym)
  {
    hide M.TablePoint, M.TableData, M.StrayGroup, S.SubcarrierSlot, S.Offset, S.Width, Entry, T.TableEntry;
    hide BeforeStray;
    ghost var coded := output[..];
    var t, j := 0, 0;
    ghost var sym, q := 0, 0;
    WalkStart();
    StrayStart(nSts);
    while j < S.ENTRIES * nSym
      invariant q < S.SUBCARRIERS && sym <= nSym && (sym == nSym ==> q == 0)
      invariant t == S.SUBCARRIERS * sym + q
      invariant j == S.ENTRIES * sym + S.Offset(q) && S.Offset(q) < S.ENTRIES && (q == 0 ==> S.Offset(q) == 0)
      invariant forall x :: 0 <= x < t ==> PointDone(symMod[..], base, coded, nSts, nSym, i, x)
      invariant B.Outside(symMod[..], old(symMod[..]), base, base + S.SUBCARRIERS * nSym)
      invariant nSts >= 5 ==> sym == 0 && BeforeStray(nSts, 0, q)
      decreases S.ENTRIES * nSym - j
    {
      ghost var before := symMod[..];
      assert sym < nSym;
      assert t / S.SUBCARRIERS == sym && t % S.SUBCARRIERS == q;
      assert j / S.ENTRIES == sym && j % S.ENTRIES == S.Offset(q);
      WidthOfSlot(q);
      EntriesAt(nSts, i, sym, q, 0);
      if nSts >= 5 {
        StrayNext(nSts, q);
      }
      NextSubcarrier(q);
      if table[i, j] >= M.SENTINEL {
        if table[i, j] - M.SENTINEL >= 3 {
          return false;
        }
        symMod[base + t] := M.PILOT_TYPE[table[i, j] - M.SENTINEL];
        j := j + 1;
      } else {
        var addr := LookUpAddress(output, table, nSts, nSym, i, sym, q, j);
        symMod[base + t] := mapping[addr];
        j := j + 6;
      }
      PointIsDone(symMod[..], base, coded, nSts, nSym, i, sym, q, t);
      forall x | 0 <= x < t
        ensures PointDone(symMod[..], base, coded, nSts, nSym, i, x)
      {
        assert PointDone(before, base, coded, nSts, nSym, i, x);
      }
      t := t + 1;
      WalkStart();
      if q + 1 == S.SUBCARRIERS {
        sym, q := sym + 1, 0;
      } else {
        q := q + 1;
      }
    }
    SegmentDone(symMod[..], base, coded, nSts, nSym, i);
    return true;
  }

  /** The point that one step of the walk has written. */
  lemma PointIsDone(symMod: seq<Complex32>, base: nat, coded: seq<int>, nSts: nat, nSym: nat,
                    i: nat, sym: nat, q: nat, t: nat)
    requires M.Coded(coded, nSts, nSym) && i < nSts && sym < nSym && q < S.SUBCARRIERS && base + t < |symMod|
    requires t == S.SUBCARRIERS * sym + q && t / S.SUBCARRIERS == sym && t % S.SUBCARRIERS == q
    requires nSts <= 4 ==>
      match S.SubcarrierSlot(q)
      case Pilot(p) => p < 8 && symMod[base + t] == M.PILOT_TYPE[M.PILOT_CODES[(p + sym % 8) % 8] - M.SENTINEL]
      case Zero => symMod[base + t] == M.PILOT_TYPE[M.ZERO_CODE - M.SENTINEL]
      case Data(n) => n < 234 && symMod[base + t] == M.TableData(coded, nSts, nSym, i, sym, n)
    ensures PointDone(symMod, base, coded, nSts, nSym, i, t)
  {
    hide M.TablePoint, M.TableData, S.SubcarrierSlot;
    if nSts <= 4 {
      PointOfSlot(coded, nSts, nSym, i, sym, q);
    }
  }

  lemma SegmentDone(symMod: seq<Complex32>, base: nat, coded: seq<int>, nSts: nat, nSym: nat, i: nat)
    requires M.Coded(coded, nSts, nSym) && i < nSts && base + S.SUBCARRIERS * nSym <= |symMod|
    requires forall x :: 0 <= x < S.SUBCARRIERS * nSym ==> PointDone(symMod, base, coded, nSts, nSym, i, x)
    ensures nSts <= 4 ==> StreamMapped(symMod, base, coded, nSts, nSym, i)
  {
    hide M.TablePoint;
    if nSts <= 4 {
      forall x | base <= x < base + S.SUBCARRIERS * nSym
        ensures symMod[x] == M.TablePoint(coded, nSts, nSym, i, (x - base) / S.SUBCARRIERS, (x - base) % S.SUBCARRIERS)
      {
        assert PointDone(symMod, base, coded, nSts, nSym, i, x - base);
      }
    }
  }

  /** Segment i of the flat map holds stream i. */
  ghost predicate SegmentMapped(symMod: seq<Complex32>, coded: seq<int>, nSts: nat, nSym: nat, i: nat)
    requires M.Coded(coded, nSts, nSym) && nSts <= 4 && i < nSts
  {
    var width := S.SUBCARRIERS * nSym;
    && 0 <= i * width <= |symMod| - width
    && StreamMapped(symMod, i * width, coded, nSts, nSym, i)
  }

  /** stream_interweave_mapping: the flat map of all streams, one after the other.  For every
      number of streams the program reads inside its table of codes if and only if there are at
      most four. */
  method StreamInterweaveMapping(output: array<int>, table: array2<int>, mapping: array<Complex32>,
                                 nSts: nat, nSym: nat, symMod: array<Complex32>) returns (inside: bool)
    requires M.Coded(output[..], nSts, nSym)
    requires IsTable(table, nSts, nSym) && IsMappingTable(mapping)
    requires symMod.Length == nSts * (S.SUBCARRIERS * nSym) && symMod != mapping
    modifies symMod
    ensures inside <==> nSts <= 4 || nSym == 0
    ensures nSts <= 4 ==> forall i :: 0 <= i < nSts ==> SegmentMapped(symMod[..], output[..], nSts, nSym, i)
  {
    hide M.TablePoint, StreamMapped, IsTable;
    var width := S.SUBCARRIERS * nSym;
    ghost var coded := output[..];
    for i := 0 to nSts
      invariant nSts <= 4 ==> forall s :: 0 <= s < i ==> SegmentMapped(symMod[..], coded, nSts, nSym, s)
      invariant i > 0 ==> nSts <= 4 || nSym == 0
    {
      ghost var before := symMod[..];
      T.NextSymbol(i, nSts, width);
      inside := MapStream(output, table, mapping, nSts, nSym, i, i * width, symMod);
      if !inside {
        return false;
      }
      forall s | nSts <= 4 && 0 <= s < i
        ensures SegmentMapped(symMod[..], coded, nSts, nSym, s)
      {
        T.NextSymbol(s, i, width);
        assert SegmentMapped(before, coded, nSts, nSym, s);
        SegmentKept(before, symMod[..], coded, nSts, nSym, s, i * width);
      }
    }
    return true;
  }

  lemma SegmentKept(before: seq<Complex32>, now: seq<Complex32>, coded: seq<int>,
                    nSts: nat, nSym: nat, s: nat, from: nat)
    requires M.Coded(coded, nSts, nSym) && nSts <= 4 && s < nSts
    requires SegmentMapped(before, coded, nSts, nSym, s) && s * (S.SUBCARRIERS * nSym) + S.SUBCARRIERS * nSym <= from
    requires B.Outside(now, before, from, from + S.SUBCARRIERS * nSym)
    ensures SegmentMapped(now, coded, nSts, nSym, s)
  {
    hide M.TablePoint;
  }

  /** initial_streamwave_table: the table with pilots for all symbols of a frame. */
  method InitialStreamwaveTable(nSts: nat, nSym: nat) returns (table: array2<int>)
    requires 1 <= nSts <= 8
    ensures fresh(table) && IsTable(table, nSts, nSym)
  {
    hide Entry, T.TableEntry;
    var codeIn := new int[nSts, 1404];
    L.GenerateStreamCodeInTable(M.Qam64(nSts), codeIn);
    table := new int[nSts, S.ENTRIES * nSym];
    PilotAddTable(codeIn, table, nSym);
    forall tx | 0 <= tx < nSts
      ensures B.Rows(codeIn)[tx] == StreamRow(nSts, tx)
    {
    }
  }
}

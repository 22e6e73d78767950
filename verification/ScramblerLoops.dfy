/** The loops of GenDataAndScramble.c. */
module ScramblerLoops {
  import opened PowersOfTwo
  import opened Scrambler
  import opened ScramblerTable
  import F = FrameLengths

  /** SetN1: set bit n. */
  function SetBit(b: nat, n: nat): (s: nat) {
    if GetBit(b, n) == 1 then b else b + Pow2(n)
  }

  lemma SetNextBit(bits: seq<Bit>)
    ensures SetBit(Number(bits), |bits|) == Number(bits + [1]) && Number(bits + [0]) == Number(bits)
  {
    GetBitOfNumber(bits, |bits|);
    NumberAppend(bits, 1);
    NumberAppend(bits, 0);
  }

  /** The loop that moves every place down by one; the last place is left to the caller. */
  method ShiftRegister(reg: array<Bit>)
    requires reg.Length == REGISTER
    modifies reg
    ensures reg[..6] == old(reg[..])[1..]
  {
    for k := 0 to 6
      invariant forall x :: 0 <= x < k ==> reg[x] == old(reg[x + 1])
      invariant forall x :: k <= x < REGISTER ==> reg[x] == old(reg[x])
    {
      reg[k] := reg[k + 1];
    }
  }

  /** One bit: set the output bit if the sum is odd, shift the register, and put the output
      bit at its end. */
  method ScrambleBit(databits: nat, n: nat, reg: array<Bit>, dataOut: nat, ghost y: seq<Bit>) returns (next: nat)
    requires reg.Length == REGISTER && |y| == n && dataOut == Number(y)
    modifies reg
    ensures var b := Parity(GetBit(databits, n), old(reg[0]), old(reg[3]));
      next == Number(y + [b]) && reg[..] == old(reg[..])[1..] + [b]
  {
    hide Number;
    next := dataOut;
    SetNextBit(y);
    if (GetBit(databits, n) as int + reg[0] as int + reg[3] as int) % 2 != 0 {
      next := SetBit(next, n);
    }
    ghost var b := Parity(GetBit(databits, n), reg[0], reg[3]);
    assert next == Number(y + [b]);
    ShiftRegister(reg);
    GetBitOfNumber(y + [b], n);
    reg[6] := GetBit(next, n);
    assert reg[..] == reg[..6] + [reg[6]];
  }

  /** The first `count` bits of a byte. */
  method ScrambleBits(databits: nat, count: nat, reg: array<Bit>) returns (dataOut: nat)
    requires reg.Length == REGISTER
    modifies reg
    ensures dataOut == Number(Output(FirstBits(databits, count), old(reg[..])))
    ensures reg[..] == Register(FirstBits(databits, count), old(reg[..]))
  {
    hide Output, Register, Number, Parity;
    ghost var r := reg[..];
    dataOut := 0;
    StartByte(databits, r);
    for n := 0 to count
      invariant dataOut == Number(Output(FirstBits(databits, n), r))
      invariant reg[..] == Register(FirstBits(databits, n), r)
    {
      NextBit(databits, n, r);
      dataOut := ScrambleBit(databits, n, reg, dataOut, Output(FirstBits(databits, n), r));
    }
  }

  lemma StartByte(databits: nat, r: seq<Bit>)
    requires |r| == REGISTER
    ensures Number(Output(FirstBits(databits, 0), r)) == 0 && Register(FirstBits(databits, 0), r) == r
  {
    NothingScrambled(r);
    assert FirstBits(databits, 0) == [];
  }

  lemma NextBit(databits: nat, n: nat, r: seq<Bit>)
    requires |r| == REGISTER
    ensures var q := Register(FirstBits(databits, n), r); var b := Parity(GetBit(databits, n), q[0], q[3]);
      && Output(FirstBits(databits, n + 1), r) == Output(FirstBits(databits, n), r) + [b]
      && Register(FirstBits(databits, n + 1), r) == q[1..] + [b]
  {
    assert FirstBits(databits, n + 1) == FirstBits(databits, n) + [GetBit(databits, n)];
    StepAppend(FirstBits(databits, n), GetBit(databits, n), r);
  }

  /** The seven bits of a register number. */
  method LoadRegister(number: nat, reg: array<Bit>)
    requires reg.Length == REGISTER
    modifies reg
    ensures reg[..] == FirstBits(number, 7)
  {
    for i := 0 to 7
      invariant forall k :: 0 <= k < i ==> reg[k] == GetBit(number, k)
    {
      reg[i] := GetBit(number, i);
    }
  }

  // ---------------------------------------------------------------------------
  // The table
  // ---------------------------------------------------------------------------

  datatype Entry = Entry(dataOut: nat, regOut: nat)

  /** What the table holds for a data byte and a register number. */
  function EntryOf(i: nat, j: nat): (e: Entry) {
    Entry(Number(Output(FirstBits(i, 8), FirstBits(j, 7))), Number(Register(FirstBits(i, 8), FirstBits(j, 7))))
  }

  /** __GenDataAndScramble_aux */
  method FillEntry(databits: nat, number: nat) returns (e: Entry)
    ensures e == EntryOf(databits, number)
  {
    hide Number, Output, Register;
    var reg := new Bit[REGISTER];
    LoadRegister(number, reg);
    var dataOut := ScrambleBits(databits, 8, reg);
    SevenBits(reg[..]);
    e := Entry(dataOut, 64 * (reg[6] as int) + 32 * (reg[5] as int) + 16 * (reg[4] as int) + 8 * (reg[3] as int)
                        + 4 * (reg[2] as int) + 2 * (reg[1] as int) + reg[0] as int);
  }

  lemma SevenBits(r: seq<Bit>)
    requires |r| == 7
    ensures Number(r) == 64 * (r[6] as int) + 32 * (r[5] as int) + 16 * (r[4] as int) + 8 * (r[3] as int)
                         + 4 * (r[2] as int) + 2 * (r[1] as int) + r[0] as int
  {
    NumberFrom(r, 0);
    NumberFrom(r, 1);
    NumberFrom(r, 2);
    NumberFrom(r, 3);
    NumberFrom(r, 4);
    NumberFrom(r, 5);
    NumberFrom(r, 6);
    assert r[0..] == r && r[7..] == [];
  }

  ghost predicate TableReady(table: array2<Entry>)
    requires table.Length0 == 256 && table.Length1 == 128
    reads table
  {
    forall i, j :: 0 <= i < 256 && 0 <= j < 128 ==> table[i, j] == EntryOf(i, j)
  }

  /** Creatnewchart: the whole table. */
  method CreateChart(table: array2<Entry>)
    requires table.Length0 == 256 && table.Length1 == 128
    modifies table
    ensures TableReady(table)
  {
    hide EntryOf;
    for i := 0 to 256
      invariant forall u, v :: 0 <= u < i && 0 <= v < 128 ==> table[u, v] == EntryOf(u, v)
    {
      for j := 0 to 128
        invariant forall u, v :: 0 <= u < i && 0 <= v < 128 ==> table[u, v] == EntryOf(u, v)
        invariant forall v :: 0 <= v < j ==> table[i, v] == EntryOf(i, v)
      {
        var e := FillEntry(i, j);
        table[i, j] := e;
      }
    }
  }

  // ---------------------------------------------------------------------------
  // The two forms
  // ---------------------------------------------------------------------------

  method PrepareData(databits: seq<Byte>, scrLength: nat) returns (data: array<Byte>)
    requires |databits| + 2 <= scrLength
    ensures fresh(data) && data[..] == Padded(databits, scrLength)
  {
    data := new Byte[scrLength];
    for i := 0 to 2
      invariant forall k :: 0 <= k < i ==> data[k] == 0
    {
      data[i] := 0;
    }
    for i := 2 to |databits| + 2
      invariant forall k :: 0 <= k < i ==> data[k] == Padded(databits, scrLength)[k]
    {
      data[i] := databits[i - 2];
    }
    for i := |databits| + 2 to scrLength
      invariant forall k :: 0 <= k < i ==> data[k] == Padded(databits, scrLength)[k]
    {
      data[i] := 0;
    }
  }

  /** The bits of byte i with the running count of the bitwise form. */
  method CountedBits(data: seq<Byte>, valid: nat, i: nat, reg: array<Bit>) returns (dataOut: nat)
    requires i < |data| && reg.Length == REGISTER && reg[..] == RegisterAt(data, valid, i)
    modifies reg
    ensures dataOut == ByteOut(data, valid, i) && reg[..] == RegisterAt(data, valid, i + 1)
  {
    hide Output, Register, Number, Parity, RegisterAt;
    ghost var r := reg[..];
    dataOut := 0;
    var count, n: nat := 8 * i, 0;
    StartByte(data[i], r);
    for j := 0 to 8
      invariant count == 8 * i + j && n == if j < ValidIn(valid, i) then j else ValidIn(valid, i)
      invariant dataOut == Number(Output(FirstBits(data[i], n), r))
      invariant reg[..] == Register(FirstBits(data[i], n), r)
    {
      count := count + 1;
      if count <= valid {
        NextBit(data[i], n, r);
        dataOut := ScrambleBit(data[i], j, reg, dataOut, Output(FirstBits(data[i], n), r));
        n := n + 1;
      }
    }
    NextRegister(data, valid, i);
  }

  /** GenDataAndScramble without the table. */
  method ScrambleBitwise(out: array<nat>, databits: seq<Byte>, valid: nat)
    requires |databits| + 2 <= out.Length
    modifies out
    ensures forall i :: 0 <= i < out.Length ==> out[i] == ByteOut(Padded(databits, out.Length), valid, i)
  {
    hide ByteOut, RegisterAt, Padded;
    var data := PrepareData(databits, out.Length);
    ghost var d := data[..];
    var reg := new Bit[] [1, 0, 1, 1, 0, 1, 0];
    InitialRegister(d, valid);
    for i := 0 to out.Length
      invariant data[..] == d && reg[..] == RegisterAt(d, valid, i)
      invariant forall k :: 0 <= k < i ==> out[k] == ByteOut(d, valid, k)
    {
      var b := CountedBits(data[..], valid, i, reg);
      out[i] := b;
    }
  }

  lemma InitialRegister(data: seq<Byte>, valid: nat)
    ensures RegisterAt(data, valid, 0) == INITIAL
  {
  }

  /** The register number kept between the table lookups. */
  lemma LookUp(data: seq<Byte>, valid: nat, i: nat)
    requires i < |data| && 8 * (i + 1) <= valid
    ensures Number(RegisterAt(data, valid, i)) < 128
    ensures EntryOf(data[i], Number(RegisterAt(data, valid, i)))
         == Entry(ByteOut(data, valid, i), Number(RegisterAt(data, valid, i + 1)))
  {
    hide Output, Register, Number;
    var r := RegisterAt(data, valid, i);
    RegisterBack(r);
    NextRegister(data, valid, i);
  }

  lemma RegisterBack(r: seq<Bit>)
    requires |r| == REGISTER
    ensures Number(r) < 128 && FirstBits(Number(r), 7) == r
  {
    NumberBound(r);
    assert Pow2(7) == 128;
    forall n | 0 <= n < 7
      ensures FirstBits(Number(r), 7)[n] == r[n]
    {
      GetBitOfNumber(r, n);
    }
  }

  /** GenDataAndScramble with the table. */
  method ScrambleByTable(out: array<nat>, databits: seq<Byte>, valid: nat, table: array2<Entry>)
    requires |databits| + 2 <= out.Length
    requires table.Length0 == 256 && table.Length1 == 128 && TableReady(table)
    modifies out
    ensures forall i :: 0 <= i < out.Length ==> out[i] == TableByteOut(Padded(databits, out.Length), valid, i)
  {
    hide ByteOut, TableByteOut, RegisterAt, Padded, EntryOf, Output, Number, FirstBits;
    var data := PrepareData(databits, out.Length);
    ghost var d := data[..];
    var number: nat := 45;
    StartNumber(d, valid);
    var count := 0;
    for i := 0 to out.Length
      invariant data[..] == d && count == 8 * i && TableReady(table)
      invariant number == Number(RegisterAt(d, valid, if 8 * i <= valid then i else valid / 8))
      invariant forall k :: 0 <= k < i ==> out[k] == TableByteOut(d, valid, k)
    {
      count := count + 8;
      if count <= valid {
        LookUp(d, valid, i);
        TableEntry(d, valid, i);
        var e := table[data[i], number];
        out[i] := e.dataOut;
        number := e.regOut;
      } else {
        var reg := new Bit[REGISTER];
        RegisterBack(RegisterAt(d, valid, valid / 8));
        LoadRegister(number, reg);
        var b := ScrambleBits(data[i], valid % 8, reg);
        TableEntry(d, valid, i);
        out[i] := b;
      }
    }
  }

  lemma TableEntry(data: seq<Byte>, valid: nat, i: nat)
    requires i < |data|
    ensures TableByteOut(data, valid, i)
         == if 8 * (i + 1) <= valid then ByteOut(data, valid, i)
            else Number(Output(FirstBits(data[i], valid % 8), RegisterAt(data, valid, valid / 8)))
  {
  }

  lemma StartNumber(data: seq<Byte>, valid: nat)
    ensures Number(RegisterAt(data, valid, 0)) == 45
  {
    SevenBits(INITIAL);
  }

  /** Both forms on the same frame, with the lengths that GenInit computes for its rate. */
  method CompareForms(
    databits: seq<Byte>, nDbps: nat, table: array2<Entry>, bitwise: array<nat>, byTable: array<nat>)
    requires nDbps > 0 && table.Length0 == 256 && table.Length1 == 128 && TableReady(table)
    requires bitwise != byTable && bitwise.Length == byTable.Length == F.ScrLength(|databits|, nDbps)
    modifies bitwise, byTable
    ensures bitwise[..] == byTable[..]
  {
    hide ByteOut, TableByteOut, Padded, EntryOf, F.ScrLength, F.ValidBits;
    F.ConfiguredLengths(|databits|, nDbps);
    var valid := F.ValidBits(|databits|, nDbps);
    ScrambleBitwise(bitwise, databits, valid);
    ScrambleByTable(byTable, databits, valid, table);
    forall i | 0 <= i < bitwise.Length
      ensures bitwise[i] == byTable[i]
    {
      TableAgrees(Padded(databits, bitwise.Length), valid, i);
    }
  }

  /** Both forms with a buffer longer than that, on a frame for which they part. */
  method CompareLongBuffers(n: nat, valid: nat, table: array2<Entry>, bitwise: array<nat>, byTable: array<nat>)
    requires table.Length0 == 256 && table.Length1 == 128 && TableReady(table)
    requires bitwise != byTable && bitwise.Length == byTable.Length > valid / 8 + 1
    requires n >= 1 && 8 * (n + 2) <= valid && valid % 8 != 0
    modifies bitwise, byTable
    ensures bitwise[..] != byTable[..]
  {
    hide ByteOut, TableByteOut, Padded, EntryOf, Exhibit;
    var databits := Exhibit(n, valid);
    ScrambleBitwise(bitwise, databits, valid);
    ScrambleByTable(byTable, databits, valid, table);
    TableDiffers(n, bitwise.Length, valid);
    assert bitwise[bitwise.Length - 1] != byTable[byTable.Length - 1];
  }
}

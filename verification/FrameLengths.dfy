/** The lengths that GenInit computes for a frame of apepLen bytes with nDbps data bits a symbol. */
module FrameLengths {
  import DivMod

  /** N_SYM: the fewest symbols that hold the service field, the data and the tail. */
  function Symbols(apepLen: nat, nDbps: nat): (n: nat)
    requires nDbps > 0
    ensures (n - 1) * nDbps < 8 * apepLen + 22 <= n * nDbps
  {
    DivMod.Split(8 * apepLen + 22 + nDbps - 1, nDbps);
    DivMod.Distribute((8 * apepLen + 22 + nDbps - 1) / nDbps, 1, nDbps);
    (8 * apepLen + 22 + nDbps - 1) / nDbps
  }

  function PsduLength(apepLen: nat, nDbps: nat): (n: nat)
    requires nDbps > 0
    ensures n >= apepLen
  {
    (Symbols(apepLen, nDbps) * nDbps - 22) / 8
  }

  function MacPad(apepLen: nat, nDbps: nat): nat
    requires nDbps > 0
  {
    (PsduLength(apepLen, nDbps) - apepLen) * 8
  }

  function Pad(apepLen: nat, nDbps: nat): (n: nat)
    requires nDbps > 0
    ensures n < 8
  {
    Symbols(apepLen, nDbps) * nDbps - 8 * PsduLength(apepLen, nDbps) - 22
  }

  function ScrLength(apepLen: nat, nDbps: nat): (n: nat)
    requires nDbps > 0
    ensures n >= apepLen + 3
  {
    apepLen + 2 + (MacPad(apepLen, nDbps) + Pad(apepLen, nDbps)) / 8 + 1
  }

  function ValidBits(apepLen: nat, nDbps: nat): (n: nat)
    requires nDbps > 0
    ensures n >= 8 * (apepLen + 2)
  {
    (apepLen + 2) * 8 + MacPad(apepLen, nDbps) + Pad(apepLen, nDbps)
  }

  /** For every frame and rate: the valid bits are all data bits of the symbols but the tail,
      and the buffer is one byte longer than their whole bytes. */
  lemma ConfiguredLengths(apepLen: nat, nDbps: nat)
    requires nDbps > 0
    ensures ValidBits(apepLen, nDbps) == Symbols(apepLen, nDbps) * nDbps - 6
    ensures ScrLength(apepLen, nDbps) == ValidBits(apepLen, nDbps) / 8 + 1
  {
    hide Symbols;
    DivMod.AddMultiple(MacPad(apepLen, nDbps) + Pad(apepLen, nDbps), apepLen + 2, 8);
  }
}

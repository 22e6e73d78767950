/** The flow counter and the packet accounting of pkt_burst_flow_gen, with retries disabled. */
module FlowGenerator {
  import DivMod

  const MAX_PKT_BURST: nat := 512

  type Packet = nat

  /** A packet on the wire, with the flow number in its destination address. */
  datatype Sent = Sent(packet: Packet, flow: nat)

  /** The flow numbers of consecutive packets from the n-th on, from 0. */
  function Numbered(packets: seq<Packet>, n: nat, flows: nat): (s: seq<Sent>)
    requires flows > 0
    ensures |s| == |packets|
    ensures forall i :: 0 <= i < |packets| ==> s[i] == Sent(packets[i], (n + i) % flows)
  {
    seq(|packets|, i requires 0 <= i < |packets| => Sent(packets[i], (n + i) % flows))
  }

  /** How many packets a burst allocates: until the pool fails or the burst is complete. */
  function BurstSize(granted: nat, perBurst: nat): (n: nat)
    ensures n <= perBurst && n <= granted && (n == perBurst || n == granted)
  {
    if granted < perBurst then granted else perBurst
  }

  /** How many of the packets offered the device takes. */
  function Accepted(offered: nat, accept: nat): (n: nat)
    ensures n <= offered && n <= accept && (n == offered || n == accept)
  {
    if accept < offered then accept else offered
  }

  /** Packets counted over all streams. */
  function Total(counts: seq<nat>): (t: nat) {
    if counts == [] then 0 else Total(counts[..|counts| - 1]) + counts[|counts| - 1]
  }

  lemma {:induction false} TotalOfUpdate(counts: seq<nat>, i: nat, c: nat)
    requires i < |counts|
    ensures Total(counts[i := c]) == Total(counts) - counts[i] + c
    decreases |counts|
  {
    var last := |counts| - 1;
    if i == last {
      assert counts[i := c][..last] == counts[..last];
    } else {
      TotalOfUpdate(counts[..last], i, c);
      assert counts[i := c][..last] == counts[..last][i := c];
    }
  }

  lemma {:induction false} TotalOfZeros(counts: seq<nat>)
    requires forall i :: 0 <= i < |counts| ==> counts[i] == 0
    ensures Total(counts) == 0
  {
    if counts != [] {
      TotalOfZeros(counts[..|counts| - 1]);
    }
  }

  /** The forwarding engine: one flow counter for all streams, and the packet counters of
      each stream. */
  class Engine {
    const flows: nat
    var nextFlow: int
    var rxPackets: seq<nat>
    var txPackets: seq<nat>

    ghost var sent: seq<Sent>
    ghost var freed: seq<Packet>

    /** The counter is the number of packets that all streams have sent, modulo the number of
        flows, and the flows of the packets sent so far, on whatever stream, run through 0, 1,
        ..., flows - 1 without a gap. */
    ghost predicate Valid()
      reads this
    {
      && flows > 0
      && |rxPackets| == |txPackets|
      && Total(txPackets) == |sent|
      && nextFlow == |sent| % flows
      && forall i :: 0 <= i < |sent| ==> sent[i].flow == i % flows
    }

    constructor (flows: nat, streams: nat)
      requires flows > 0
      ensures Valid() && this.flows == flows && |txPackets| == streams && sent == [] && freed == []
    {
      this.flows := flows;
      nextFlow := 0;
      rxPackets, txPackets := seq(streams, _ => 0), seq(streams, _ => 0);
      sent, freed := [], [];
      new;
      TotalOfZeros(txPackets);
    }

    /** The loop that allocates and builds packets; `built` holds the flow of each. */
    method Build(granted: seq<Packet>, perBurst: nat, burst: array<Packet>, built: array<nat>)
      returns (nbPkt: nat)
      requires Valid() && perBurst <= burst.Length == built.Length && burst != built
      modifies this`nextFlow, burst, built
      ensures nbPkt == BurstSize(|granted|, perBurst)
      ensures burst[..nbPkt] == granted[..nbPkt]
      ensures forall i :: 0 <= i < nbPkt ==> built[i] == (|sent| + i) % flows
      ensures nextFlow == (|sent| + nbPkt) % flows
    {
      nbPkt := 0;
      while nbPkt < perBurst && nbPkt < |granted|
        invariant nbPkt <= perBurst && nbPkt <= |granted|
        invariant burst[..nbPkt] == granted[..nbPkt]
        invariant forall i :: 0 <= i < nbPkt ==> built[i] == (|sent| + i) % flows
        invariant nextFlow == (|sent| + nbPkt) % flows
      {
        built[nbPkt] := nextFlow;
        burst[nbPkt] := granted[nbPkt];
        DivMod.ReduceInside(|sent| + nbPkt, 1, flows);
        nextFlow := (nextFlow + 1) % flows;
        nbPkt := nbPkt + 1;
      }
    }

    /** Backing out the packets that the device did not take. */
    method BackOut(unsent: nat, ghost n: nat)
      requires flows > 0 && nextFlow == (n + unsent) % flows
      modifies this`nextFlow
      ensures nextFlow == n % flows
    {
      ghost var total := n + unsent;
      nextFlow := nextFlow - unsent;
      DivMod.ReduceInside(total, -(unsent as int), flows);
      while nextFlow < 0
        invariant nextFlow % flows == n % flows && nextFlow < flows
        decreases -nextFlow
      {
        DivMod.AddMultiple(nextFlow, 1, flows);
        nextFlow := nextFlow + flows;
      }
      DivMod.Unique(nextFlow, flows, 0, nextFlow);
    }

    /** The loop that frees the received packets. */
    method Discard(received: seq<Packet>)
      modifies this`freed
      ensures freed == old(freed) + received
    {
      for i := 0 to |received|
        invariant freed == old(freed) + received[..i]
      {
        freed := freed + [received[i]];
        assert received[..i + 1] == received[..i] + [received[i]];
      }
      assert received[..|received|] == received;
    }

    /** One burst of stream fs.  `received` is what the device delivers, `granted` what the pool
        would hand out before it fails, `accept` how many packets the device would take. */
    method Burst(fs: nat, received: seq<Packet>, granted: seq<Packet>, perBurst: nat, accept: nat)
      requires Valid() && fs < |txPackets| && |received| <= perBurst <= MAX_PKT_BURST
      modifies this
      ensures Valid()
      ensures var nbPkt := BurstSize(|granted|, perBurst); var nbTx := Accepted(nbPkt, accept);
        && sent == old(sent) + Numbered(granted[..nbTx], |old(sent)|, flows)
        && freed == old(freed) + received + granted[nbTx..nbPkt]
        && txPackets == old(txPackets)[fs := old(txPackets[fs]) + nbTx]
      ensures rxPackets == old(rxPackets)[fs := old(rxPackets[fs]) + |received|]
    {
      hide Total;
      var burst, built := new Packet[MAX_PKT_BURST], new nat[MAX_PKT_BURST];
      rxPackets := rxPackets[fs := rxPackets[fs] + |received|];
      Discard(received);
      var nbPkt := Build(granted, perBurst, burst, built);
      var nbTx := if accept < nbPkt then accept else nbPkt;
      TotalOfUpdate(txPackets, fs, txPackets[fs] + nbTx);
      txPackets := txPackets[fs := txPackets[fs] + nbTx];
      ghost var wire := seq(nbTx, i requires 0 <= i < nbTx reads burst, built => Sent(burst[i], built[i]));
      assert burst[..nbTx] == granted[..nbTx];
      assert wire == Numbered(granted[..nbTx], |sent|, flows);
      ghost var before := |sent|;
      sent := sent + wire;
      if nbTx < nbPkt {
        BackOut(nbPkt - nbTx, before + nbTx);
        FreeRest(burst, nbTx, nbPkt);
      } else {
        assert granted[nbTx..nbPkt] == [];
      }
    }

    /** The do-while loop that frees what was not sent. */
    method FreeRest(burst: array<Packet>, from: nat, to: nat)
      requires from < to <= burst.Length
      modifies this`freed
      ensures freed == old(freed) + burst[from..to]
    {
      freed := freed + [burst[from]];
      var nbTx := from + 1;
      while nbTx < to
        invariant from < nbTx <= to
        invariant freed == old(freed) + burst[from..nbTx]
      {
        freed := freed + [burst[nbTx]];
        nbTx := nbTx + 1;
      }
    }

    /** Any number of bursts of any streams, one after the other. */
    method Run(bursts: seq<Offer>, perBurst: nat)
      requires Valid() && perBurst <= MAX_PKT_BURST
      requires forall i :: 0 <= i < |bursts| ==> bursts[i].fs < |txPackets| && |bursts[i].received| <= perBurst
      modifies this
      ensures Valid()
      ensures multiset(Packets(sent)) + multiset(freed)
           == multiset(old(Packets(sent))) + multiset(old(freed)) + Handled(bursts, perBurst)
    {
      assert bursts[..0] == [];
      for i := 0 to |bursts|
        invariant Valid() && |txPackets| == |old(txPackets)|
        invariant multiset(Packets(sent)) + multiset(freed)
          == multiset(old(Packets(sent))) + multiset(old(freed)) + Handled(bursts[..i], perBurst)
      {
        ghost var was, gone := sent, freed;
        var o := bursts[i];
        Burst(o.fs, o.received, o.granted, perBurst, o.accept);
        assert bursts[..i + 1][..i] == bursts[..i];
        AllHandled(was, gone, o, perBurst, flows);
      }
      assert bursts[..|bursts|] == bursts;
    }
  }

  /** A burst of stream fs, and what the device and the pool offer to it. */
  datatype Offer = Offer(fs: nat, received: seq<Packet>, granted: seq<Packet>, accept: nat)

  function Packets(s: seq<Sent>): (p: seq<Packet>)
    ensures |p| == |s| && forall i :: 0 <= i < |s| ==> p[i] == s[i].packet
  {
    seq(|s|, i requires 0 <= i < |s| => s[i].packet)
  }

  /** All packets that some bursts received or allocated. */
  function Handled(bursts: seq<Offer>, perBurst: nat): (m: multiset<Packet>) {
    if bursts == [] then multiset{}
    else
      var o := bursts[|bursts| - 1];
      Handled(bursts[..|bursts| - 1], perBurst)
      + multiset(o.received) + multiset(o.granted[..BurstSize(|o.granted|, perBurst)])
  }

  /** In one burst every packet received or allocated is sent or freed, once. */
  lemma AllHandled(sent: seq<Sent>, freed: seq<Packet>, o: Offer, perBurst: nat, flows: nat)
    requires flows > 0
    ensures var nbPkt := BurstSize(|o.granted|, perBurst); var nbTx := Accepted(nbPkt, o.accept);
      multiset(Packets(sent + Numbered(o.granted[..nbTx], |sent|, flows)))
      + multiset(freed + o.received + o.granted[nbTx..nbPkt])
      == multiset(Packets(sent)) + multiset(freed) + multiset(o.received) + multiset(o.granted[..nbPkt])
  {
    var nbPkt := BurstSize(|o.granted|, perBurst);
    var nbTx := Accepted(nbPkt, o.accept);
    var wire := Numbered(o.granted[..nbTx], |sent|, flows);
    assert Packets(sent + wire) == Packets(sent) + o.granted[..nbTx];
    assert o.granted[..nbPkt] == o.granted[..nbTx] + o.granted[nbTx..nbPkt];
  }
}

/** What the invariant means: conservation, order, and an orderly stop. */
module PipelineTheorems {
  import opened Schedules
  import opened DistinctSequences
  import opened Pipeline
  import opened PipelineInvariant
  import opened PipelineSteps

  // ---------------------------------------------------------------------------
  // Each buffer is in exactly one place
  // ---------------------------------------------------------------------------

  function CountRings(rings: seq<seq<Mbuf>>, id: Mbuf): (n: nat) {
    if rings == [] then 0 else CountRings(rings[..|rings| - 1], id) + multiset(rings[|rings| - 1])[id]
  }

  function CountHands(threads: seq<Thread>, id: Mbuf): (n: nat) {
    if threads == [] then 0
    else CountHands(threads[..|threads| - 1], id) + if InHandOf(threads[|threads| - 1], id) then 1 else 0
  }

  lemma {:induction false} CountRingsUpTo(s: State, id: Mbuf, k: nat)
    requires Sizes(s) && Places(s) && k <= RINGS
    ensures CountRings(s.rings[..k], id) == if s.place[id].InRing? && s.place[id].ring < k then 1 else 0
    decreases k
  {
    if k > 0 {
      CountRingsUpTo(s, id, k - 1);
      assert s.rings[..k][..k - 1] == s.rings[..k - 1];
      assert RingOk(s.rings[k - 1], k - 1, s.place);
      DistinctOnce(s.rings[k - 1], id);
    }
  }

  lemma {:induction false} CountHandsUpTo(s: State, id: Mbuf, k: nat)
    requires Sizes(s) && Places(s) && k <= THREADS
    ensures CountHands(s.threads[..k], id) == if s.place[id].InHand? && s.place[id].thread < k then 1 else 0
    decreases k
  {
    if k > 0 {
      CountHandsUpTo(s, id, k - 1);
      assert s.threads[..k][..k - 1] == s.threads[..k - 1];
      assert HandOk(s.threads[k - 1], k - 1, s.place);
    }
  }

  /** The number of times a buffer occurs in the pool, on the rings and in the hands. */
  function Occurrences(s: State, id: Mbuf): (n: nat) {
    (if id in s.pool then 1 else 0) + CountRings(s.rings, id) + CountHands(s.threads, id)
  }

  /** In every interleaving each of the 2047 buffers is in the pool, or once on one ring, or
      in one hand. */
  lemma ExactlyOnePlace(events: seq<Event<Mbuf>>, id: Mbuf)
    ensures Occurrences(After(Start(), events), id) == 1
  {
    hide After, Start;
    var s := After(Start(), events);
    RunKeeps(events);
    CountRingsUpTo(s, id, RINGS);
    CountHandsUpTo(s, id, THREADS);
    assert s.rings[..RINGS] == s.rings && s.threads[..THREADS] == s.threads;
    assert RealPlace(s.place[id]);
  }

  // ---------------------------------------------------------------------------
  // No enqueue fails
  // ---------------------------------------------------------------------------

  /** The ring a thread is about to give its buffer to. */
  function Target(s: State, t: nat): (r: nat)
    requires Sizes(s) && t < CSD
  {
    if t == 0 then 0 else Output(t, s.threads[t].dis)
  }

  /** In every interleaving, whenever a thread is about to enqueue, it has chosen a ring and
      that ring has room. */
  lemma NoEnqueueFails(events: seq<Event<Mbuf>>, t: nat)
    requires t < CSD && After(Start(), events).threads[t].pc.Worked?
    ensures Target(After(Start(), events), t) < RINGS
    ensures |After(Start(), events).rings[Target(After(Start(), events), t)]| < RING_CAPACITY
  {
    hide After, Start;
    var s := After(Start(), events);
    RunKeeps(events);
    if t > 0 {
      OutputInTurn(s.threads[t], t, s.got[Input(t)], s.sent, s.memory);
    }
    RoomForHand(s, t, Target(s, t));
  }

  // ---------------------------------------------------------------------------
  // Order
  // ---------------------------------------------------------------------------

  /** The lanes partition the frames: frame q is number (q - 1) / 4 of lane Lane(q), and
      each number on a lane is the number of one frame. */
  lemma LanesPartition(q: nat, l: nat, k: nat)
    requires q >= 1 && l < 4
    ensures Number(3 + l, k) == Number(7 + l, k) >= 1
    ensures Number(3 + l, k) == q <==> l == Lane(q) && k == (q - 1) / 4
  {
    LaneOfNumber(l, k);
  }

  /** In every interleaving: ring BCC_2_modulation l + 1 and ring modulation_2_CSD l + 1 hold
      only frames of lane l, in the order they were read, without a gap. */
  lemma LanesAreQueues(events: seq<Event<Mbuf>>, l: nat, r: nat, i: nat)
    requires l < 4 && (r == 3 + l || r == 7 + l)
    requires i < |After(Start(), events).rings[r]|
    ensures var s := After(Start(), events);
      && Lane(s.memory[s.rings[r][i]].number) == l
      && (i + 1 < |s.rings[r]| ==> s.memory[s.rings[r][i + 1]].number == s.memory[s.rings[r][i]].number + 4)
      && s.memory[s.rings[r][i]].done == if r == 3 + l then [Scramble, Encode] else [Scramble, Encode, Modulate]
  {
    hide After, Start, Lane;
    var s := After(Start(), events);
    RunKeeps(events);
    assert Queue(s.rings[r], r, s.got[r], s.sent[r], s.memory);
    SameLane(l, r, s.got[r] + i);
  }

  lemma SameLane(l: nat, r: nat, k: nat)
    requires l < 4 && (r == 3 + l || r == 7 + l)
    ensures Lane(Number(r, k)) == l && Number(r, k + 1) == Number(r, k) + 4
  {
    LaneOfNumber(l, k);
  }

  lemma {:induction false} CountLaneGrows(log: seq<Frame>, i: nat, j: nat, l: nat)
    requires i <= j <= |log|
    ensures CountLane(log[..i], l) <= CountLane(log[..j], l)
    ensures i < j && Lane(log[i].number) == l ==> CountLane(log[..i], l) < CountLane(log[..j], l)
    decreases j
  {
    hide Lane;
    if i < j {
      assert log[..j][..j - 1] == log[..j - 1];
      CountLaneGrows(log, i, j - 1, l);
    }
  }

  /** In every interleaving each frame that returned to the pool was scrambled, encoded,
      modulated and shifted, once each and in this order. */
  lemma FinishedIsComplete(events: seq<Event<Mbuf>>, i: nat)
    requires i < |After(Start(), events).finished|
    ensures After(Start(), events).finished[i].done == [Scramble, Encode, Modulate, CyclicShift]
  {
    hide After, Start, NextOnLane;
    RunKeeps(events);
  }

  /** In every interleaving no frame returned twice, and the frames of a lane returned in the
      order they were read. */
  lemma FinishedInOrder(events: seq<Event<Mbuf>>, i: nat, j: nat)
    requires i < j < |After(Start(), events).finished|
    ensures var log := After(Start(), events).finished;
      && log[i].number != log[j].number
      && (Lane(log[i].number) == Lane(log[j].number) ==> log[i].number < log[j].number)
  {
    hide After, Start, Lane, CountLane;
    RunKeeps(events);
    var log := After(Start(), events).finished;
    var l := Lane(log[i].number);
    CountLaneGrows(log, i, j, l);
    assert NextOnLane(log[i], log[..i]) && NextOnLane(log[j], log[..j]);
  }

  // ---------------------------------------------------------------------------
  // Stopping
  // ---------------------------------------------------------------------------

  /** An upper bound on the turns a thread needs to notice quit. */
  function Rank(pc: Pc): (n: nat) {
    match pc
    case Exited => 0
    case Top => 1
    case Returning(_) => 2
    case Worked(_) => 3
    case Loaded(_) => 4
    case Ready => 5
    case Trying(l) => if l <= 3 then 8 - l else 5
  }

  function Turns(events: seq<Event<Mbuf>>, t: ThreadId): (n: nat) {
    if events == [] then 0
    else Turns(events[..|events| - 1], t) + if events[|events| - 1].thread == t then 1 else 0
  }

  lemma RankDrops(s: State, t: ThreadId, pick: Pick<Mbuf>)
    requires Inv(s) && s.quit
    ensures Turn(s, t, pick).quit
    ensures s.threads[t].pc.Exited? || Rank(Turn(s, t, pick).threads[t].pc) < Rank(s.threads[t].pc)
    ensures s.threads[t].pc.Exited? ==> Turn(s, t, pick).threads[t].pc.Exited?
    ensures forall u :: 0 <= u < THREADS && u != t ==> Turn(s, t, pick).threads[u] == s.threads[u]
  {
    hide Places, Queues, LogOk, LaneCount;
    assert 1 <= t < CSD ==> WorkerOk(s.threads[t], t, s.got[Input(t)], s.sent, s.memory);
  }

  lemma {:induction false} QuitReaches(s: State, events: seq<Event<Mbuf>>, t: ThreadId)
    requires Inv(s) && s.quit
    ensures Inv(After(s, events)) && After(s, events).quit
    ensures After(s, events).threads[t].pc.Exited?
      || Rank(After(s, events).threads[t].pc) + Turns(events, t) <= Rank(s.threads[t].pc)
    decreases |events|
  {
    hide Places, Queues, Workers, CsdOk, QuitOk, Turn, Rank;
    if events != [] {
      var last := |events| - 1;
      QuitReaches(s, events[..last], t);
      var m := After(s, events[..last]);
      TurnKeeps(m, events[last].thread, events[last].pick);
      RankDrops(m, events[last].thread, events[last].pick);
    }
  }

  /** Once quit is set, a thread that gets eight more turns has returned from its loop,
      whatever the others do. */
  lemma EightTurnsToExit(s: State, events: seq<Event<Mbuf>>, t: ThreadId)
    requires Inv(s) && s.quit && Turns(events, t) >= 8
    ensures After(s, events).threads[t].pc.Exited?
  {
    hide Places, Queues, Workers, CsdOk, QuitOk, After, Turns;
    QuitReaches(s, events, t);
  }

  function TotalOnRings(rings: seq<seq<Mbuf>>): (n: nat) {
    if rings == [] then 0 else TotalOnRings(rings[..|rings| - 1]) + |rings[|rings| - 1]|
  }

  /** The buffers that the first k rings hold. */
  function OnRings(s: State, k: nat): (ids: set<Mbuf>)
    requires Sizes(s)
  {
    set id | id in AllMbufs() && s.place[id].InRing? && s.place[id].ring < k
  }

  lemma {:induction false} RingsHold(s: State, k: nat)
    requires Sizes(s) && Places(s) && k <= RINGS
    ensures |OnRings(s, k)| == TotalOnRings(s.rings[..k])
    decreases k
  {
    hide PoolOk, HandOk, AllMbufs;
    if k == 0 {
      assert OnRings(s, 0) == {};
    } else {
      RingsHold(s, k - 1);
      assert s.rings[..k][..k - 1] == s.rings[..k - 1];
      AddRing(s, k);
    }
  }

  lemma AddRing(s: State, k: nat)
    requires Sizes(s) && Places(s) && 0 < k <= RINGS
    ensures |OnRings(s, k)| == |OnRings(s, k - 1)| + |s.rings[k - 1]|
  {
    hide PoolOk, HandOk, AllMbufs;
    assert RingOk(s.rings[k - 1], k - 1, s.place);
    var before, here := OnRings(s, k - 1), Members(s.rings[k - 1]);
    DistinctCount(s.rings[k - 1]);
    assert OnRings(s, k) == before + here;
    assert before !! here;
  }

  /** When all threads have returned, the pool and the rings hold all 2047 buffers. */
  lemma NothingLostAtExit(events: seq<Event<Mbuf>>)
    requires forall t :: 0 <= t < THREADS ==> After(Start(), events).threads[t].pc.Exited?
    ensures |After(Start(), events).pool| + TotalOnRings(After(Start(), events).rings) == NUM_MBUFS
  {
    hide After, Start, TotalOnRings;
    var s := After(Start(), events);
    RunKeeps(events);
    RingsHold(s, RINGS);
    assert s.rings[..RINGS] == s.rings;
    AllMbufsCount();
    forall id: Mbuf
      ensures id in s.pool || id in OnRings(s, RINGS)
    {
      NotInHand(s, id);
    }
    assert AllMbufs() == s.pool + OnRings(s, RINGS);
    assert s.pool !! OnRings(s, RINGS);
  }

  lemma NotInHand(s: State, id: Mbuf)
    requires Inv(s) && forall t :: 0 <= t < THREADS ==> s.threads[t].pc.Exited?
    ensures s.place[id].InPool? || (s.place[id].InRing? && s.place[id].ring < RINGS)
  {
    assert RealPlace(s.place[id]);
    forall t | 0 <= t < THREADS
      ensures s.place[id] != InHand(t)
    {
      EmptyHand(s.threads[t], t, s.place, id);
    }
  }

  lemma EmptyHand(th: Thread, t: nat, place: seq<Place>, id: Mbuf)
    requires |place| == NUM_MBUFS && HandOk(th, t, place) && !Holds(th.pc)
    ensures place[id] != InHand(t)
  {
    assert !InHandOf(th, id);
  }

  /** No thread returns before exactly 100000 frames have been processed, and the CSD thread
      has then returned every one of them to the pool. */
  lemma ExactlyTheLimit(events: seq<Event<Mbuf>>)
    ensures |After(Start(), events).finished| <= FRAME_LIMIT
    ensures (exists t :: 0 <= t < THREADS && After(Start(), events).threads[t].pc.Exited?)
      ==> After(Start(), events).csdCount == FRAME_LIMIT
    ensures After(Start(), events).threads[CSD].pc.Exited?
      ==> |After(Start(), events).finished| == FRAME_LIMIT
  {
    hide After, Start;
    RunKeeps(events);
  }
}

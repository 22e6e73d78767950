/** Every turn of every thread keeps the invariant, so every run does. */
module PipelineSteps {
  import opened Schedules
  import opened Pipeline
  import opened PipelineInvariant

  // ---------------------------------------------------------------------------
  // What a change somewhere else leaves alone
  // ---------------------------------------------------------------------------

  lemma QueueStays(ring: seq<Mbuf>, r: nat, got: nat, sent: nat, memory: seq<Frame>, id: Mbuf, f: Frame)
    requires |memory| == NUM_MBUFS && Queue(ring, r, got, sent, memory) && id !in ring
    ensures Queue(ring, r, got, sent, memory[id := f])
  {
    assert forall i :: 0 <= i < |ring| ==> ring[i] in ring;
  }

  lemma WorkerStays(th: Thread, t: nat, got: nat, sent: seq<nat>, memory: seq<Frame>, id: Mbuf, f: Frame)
    requires 1 <= t < CSD && |sent| == RINGS && |memory| == NUM_MBUFS
    requires WorkerOk(th, t, got, sent, memory) && !InHandOf(th, id)
    ensures WorkerOk(th, t, got, sent, memory[id := f])
  {
  }

  lemma WorkerStaysSent(th: Thread, t: nat, got: nat, sent: seq<nat>, memory: seq<Frame>, r: nat, x: nat)
    requires 1 <= t < CSD && |sent| == RINGS && |memory| == NUM_MBUFS && r < RINGS
    requires WorkerOk(th, t, got, sent, memory)
    requires if t <= 3 then r != 2 * t - 1 && r != 2 * t else r != t + 3
    ensures WorkerOk(th, t, got, sent[r := x], memory)
  {
  }

  /** No two threads feed the same ring. */
  lemma OutputsApart(t: nat, u: nat, dis: nat)
    requires 1 <= t < CSD && 1 <= u < CSD && t != u && Output(t, dis) < RINGS
    ensures Output(t, dis) != 0
    ensures if u <= 3 then Output(t, dis) != 2 * u - 1 && Output(t, dis) != 2 * u else Output(t, dis) != u + 3
  {
  }

  /** A buffer in one hand is in no ring and in no other hand. */
  lemma OnlyInHand(s: State, t: nat, id: Mbuf)
    requires Sizes(s) && Places(s) && t < THREADS && InHandOf(s.threads[t], id)
    ensures forall r :: 0 <= r < RINGS ==> id !in s.rings[r]
    ensures forall u :: 0 <= u < THREADS && u != t ==> !InHandOf(s.threads[u], id)
  {
    assert HandOk(s.threads[t], t, s.place);
    forall r | 0 <= r < RINGS
      ensures id !in s.rings[r]
    {
      assert RingOk(s.rings[r], r, s.place);
    }
    forall u | 0 <= u < THREADS && u != t
      ensures !InHandOf(s.threads[u], id)
    {
      assert HandOk(s.threads[u], u, s.place);
    }
  }

  // ---------------------------------------------------------------------------
  // Turns that move no buffer
  // ---------------------------------------------------------------------------

  /** From one test to another. */
  predicate MayWait(s: State, t: nat, pc: Pc)
    requires Sizes(s) && t < THREADS
  {
    && !Holds(s.threads[t].pc)
    && match pc
       case Top => true
       case Ready => t != CSD
       case Trying(_) => t == CSD && !s.quit
       case Exited => s.quit
       case _ => false
  }

  lemma WaitingOk(s: State, t: nat, pc: Pc)
    requires Inv(s) && t < THREADS && MayWait(s, t, pc)
    ensures Inv(SetPc(s, t, pc))
  {
    hide Queue, Dealt, LogOk, CountLane, PoolOk, RingOk, HandOk;
    var n := SetPc(s, t, pc);
    PlacesStay(s, n, t);
    forall u | 1 <= u < CSD
      ensures WorkerOk(n.threads[u], u, n.got[Input(u)], n.sent, n.memory)
    {
      assert WorkerOk(s.threads[u], u, s.got[Input(u)], s.sent, s.memory);
      if u == t {
        WaitingWorker(s.threads[t], n.threads[t], t, s.got[Input(t)], s.sent, s.memory);
      }
    }
    forall l | 0 <= l < 4
      ensures LaneCount(n.threads[CSD], l, n.got, n.finished, n.memory)
    {
      assert LaneCount(s.threads[CSD], l, s.got, s.finished, s.memory);
    }
  }

  lemma WaitingWorker(th: Thread, to: Thread, t: nat, got: nat, sent: seq<nat>, memory: seq<Frame>)
    requires 1 <= t < CSD && |sent| == RINGS && |memory| == NUM_MBUFS
    requires WorkerOk(th, t, got, sent, memory) && !Holds(th.pc)
    requires !Holds(to.pc) && !to.pc.Trying? && to.dis == th.dis
    ensures WorkerOk(to, t, got, sent, memory)
  {
  }

  // ---------------------------------------------------------------------------
  // Turns of the reader
  // ---------------------------------------------------------------------------

  /** What a turn of one thread other than CSD leaves alone. */
  ghost predicate OnlyThread(s: State, n: State, t: nat)
    requires Sizes(s) && Sizes(n) && t < THREADS
  {
    && n.threads == s.threads[t := n.threads[t]]
    && n.quit == s.quit && n.csdCount == s.csdCount && n.finished == s.finished
    && !n.threads[t].pc.Exited?
  }

  lemma CsdStays(s: State, n: State, t: nat)
    requires Sizes(s) && Sizes(n) && t < CSD && CsdOk(s) && QuitOk(s) && OnlyThread(s, n, t)
    requires forall l :: 7 <= l < RINGS ==> n.got[l] == s.got[l]
    requires Holds(s.threads[CSD].pc) ==> n.memory[s.threads[CSD].pc.mbuf] == s.memory[s.threads[CSD].pc.mbuf]
    ensures CsdOk(n) && QuitOk(n)
  {
    hide LogOk, CountLane, NextOnLane;
    forall l | 0 <= l < 4
      ensures LaneCount(n.threads[CSD], l, n.got, n.finished, n.memory)
    {
      assert LaneCount(s.threads[CSD], l, s.got, s.finished, s.memory);
    }
    forall u | 0 <= u < THREADS && n.threads[u].pc.Exited?
      ensures n.quit
    {
      assert s.threads[u].pc.Exited?;
    }
  }

  lemma AllocateOk(s: State, id: Mbuf)
    requires Inv(s) && s.threads[0].pc.Ready? && id in s.pool
    ensures Inv(Allocate(s, 0, id))
  {
    hide Queue, WorkerOk, CsdOk, QuitOk;
    var n := Allocate(s, 0, id);
    PlacesAllocate(s, 0, id);
    CsdStays(s, n, 0);
  }

  lemma ReadFrameOk(s: State, pick: Pick<Mbuf>)
    requires Inv(s) && s.threads[0].pc.Loaded?
    ensures Inv(ReaderTurn(s, pick))
  {
    hide Queue, WorkerOk, CsdOk, QuitOk, PoolOk, RingOk, HandOk;
    var n, id := ReaderTurn(s, pick), s.threads[0].pc.mbuf;
    PlacesStay(s, n, 0);
    MemoryOk(s, n, 0, id);
    CsdStays(s, n, 0);
  }

  /** Work on the buffer in the hand of thread t disturbs no queue and no other worker. */
  lemma MemoryOk(s: State, n: State, t: nat, id: Mbuf)
    requires Sizes(s) && Sizes(n) && t < THREADS && Places(s) && Queues(s) && Workers(s)
    requires InHandOf(s.threads[t], id)
    requires n.rings == s.rings && n.sent == s.sent && n.got == s.got
    requires n.memory == s.memory[id := n.memory[id]] && n.threads == s.threads[t := n.threads[t]]
    ensures Queues(n)
    ensures forall u :: 1 <= u < CSD && u != t ==> WorkerOk(n.threads[u], u, n.got[Input(u)], n.sent, n.memory)
    ensures t != 0 && n.read == s.read ==> ReaderOk(n.threads[0], n.read, n.sent[0], n.memory)
    ensures t != CSD && Holds(s.threads[CSD].pc) ==>
      n.memory[s.threads[CSD].pc.mbuf] == s.memory[s.threads[CSD].pc.mbuf]
  {
    hide Queue, WorkerOk, Places;
    OnlyInHand(s, t, id);
    forall r | 0 <= r < RINGS
      ensures Queue(n.rings[r], r, n.got[r], n.sent[r], n.memory)
    {
      QueueStays(s.rings[r], r, s.got[r], s.sent[r], s.memory, id, n.memory[id]);
    }
    forall u | 1 <= u < CSD && u != t
      ensures WorkerOk(n.threads[u], u, n.got[Input(u)], n.sent, n.memory)
    {
      WorkerStays(s.threads[u], u, s.got[Input(u)], s.sent, s.memory, id, n.memory[id]);
    }
    assert t != 0 ==> !InHandOf(s.threads[0], id);
    assert t != CSD ==> !InHandOf(s.threads[CSD], id);
  }

  lemma QueueGrows(ring: seq<Mbuf>, r: nat, got: nat, sent: nat, memory: seq<Frame>, id: Mbuf)
    requires |memory| == NUM_MBUFS && Queue(ring, r, got, sent, memory)
    requires memory[id] == Frame(Number(r, sent), History(r))
    ensures Queue(ring + [id], r, got, sent + 1, memory)
  {
  }

  lemma QueueShrinks(ring: seq<Mbuf>, r: nat, got: nat, sent: nat, memory: seq<Frame>)
    requires |memory| == NUM_MBUFS && Queue(ring, r, got, sent, memory) && ring != []
    ensures memory[ring[0]] == Frame(Number(r, got), History(r))
    ensures Queue(ring[1..], r, got + 1, sent, memory)
  {
  }

  /** The queues after a buffer with the next frame joins ring r. */
  lemma GiveQueues(s: State, t: nat, r: nat, id: Mbuf)
    requires Sizes(s) && Queues(s) && t < THREADS && r < RINGS && |s.rings[r]| < RING_CAPACITY
    requires s.memory[id] == Frame(Number(r, s.sent[r]), History(r))
    ensures Queues(Give(s, t, r, id))
  {
    hide Queue;
    var n := Give(s, t, r, id);
    QueueGrows(s.rings[r], r, s.got[r], s.sent[r], s.memory, id);
    forall q | 0 <= q < RINGS
      ensures Queue(n.rings[q], q, n.got[q], n.sent[q], n.memory)
    {
      assert Queue(s.rings[q], q, s.got[q], s.sent[q], s.memory);
    }
  }

  lemma TakeQueues(s: State, t: nat, r: nat)
    requires Sizes(s) && Queues(s) && t < THREADS && r < RINGS && s.rings[r] != []
    ensures s.memory[s.rings[r][0]] == Frame(Number(r, s.got[r]), History(r))
    ensures Queues(Take(s, t, r))
  {
    hide Queue;
    var n := Take(s, t, r);
    QueueShrinks(s.rings[r], r, s.got[r], s.sent[r], s.memory);
    forall q | 0 <= q < RINGS
      ensures Queue(n.rings[q], q, n.got[q], n.sent[q], n.memory)
    {
      assert Queue(s.rings[q], q, s.got[q], s.sent[q], s.memory);
    }
  }

  lemma ReaderGivesOk(s: State, id: Mbuf)
    requires Inv(s) && s.threads[0].pc == Worked(id)
    ensures Inv(Give(s, 0, 0, id))
  {
    hide Queue, WorkerOk, CsdOk, QuitOk, PoolOk, RingOk, HandOk;
    var n := Give(s, 0, 0, id);
    RoomForHand(s, 0, 0);
    PlacesGive(s, 0, 0, id);
    GiveQueues(s, 0, 0, id);
    CsdStays(s, n, 0);
    forall u | 1 <= u < CSD
      ensures WorkerOk(n.threads[u], u, n.got[Input(u)], n.sent, n.memory)
    {
      WorkerStaysSent(s.threads[u], u, s.got[Input(u)], s.sent, s.memory, 0, n.sent[0]);
    }
  }

  // ---------------------------------------------------------------------------
  // Turns of the workers
  // ---------------------------------------------------------------------------

  lemma WorkerTakes(th: Thread, id: Mbuf, t: nat, got: nat, sent: seq<nat>, memory: seq<Frame>)
    requires 1 <= t < CSD && |sent| == RINGS && |memory| == NUM_MBUFS
    requires WorkerOk(th, t, got, sent, memory) && !Holds(th.pc)
    requires memory[id] == Frame(Number(Input(t), got), History(Input(t)))
    ensures WorkerOk(Thread(Loaded(id), th.dis), t, got + 1, sent, memory)
  {
  }

  lemma WorkerTakesOk(s: State, t: nat)
    requires Inv(s) && 1 <= t < CSD && s.threads[t].pc.Ready? && s.rings[Input(t)] != []
    ensures Inv(Take(s, t, Input(t)))
  {
    hide Queue, WorkerOk, CsdOk, QuitOk, PoolOk, RingOk, HandOk;
    var r := Input(t);
    var n, id := Take(s, t, r), s.rings[r][0];
    PlacesTake(s, t, r);
    TakeQueues(s, t, r);
    CsdStays(s, n, t);
    forall u | 1 <= u < CSD
      ensures WorkerOk(n.threads[u], u, n.got[Input(u)], n.sent, n.memory)
    {
      assert WorkerOk(s.threads[u], u, s.got[Input(u)], s.sent, s.memory);
      if u == t {
        WorkerTakes(s.threads[t], id, t, s.got[r], s.sent, s.memory);
      }
    }
  }

  lemma WorkerWorks(th: Thread, id: Mbuf, t: nat, got: nat, sent: seq<nat>, memory: seq<Frame>)
    requires 1 <= t < CSD && |sent| == RINGS && |memory| == NUM_MBUFS
    requires WorkerOk(th, t, got, sent, memory) && th.pc == Loaded(id)
    ensures WorkerOk(Thread(Worked(id), CountUp(th.dis)), t, got, sent,
              memory[id := Frame(memory[id].number, memory[id].done + [Job(t)])])
  {
    DisCountsUp(got - 1);
  }

  lemma DisCountsUp(n: nat)
    ensures CountUp(DisAfter(n)) == DisAfter(n + 1)
  {
  }

  lemma WorkerWorksOk(s: State, t: nat)
    requires Inv(s) && 1 <= t < CSD && s.threads[t].pc.Loaded?
    ensures Inv(WorkerTurn(s, t))
  {
    hide Queue, WorkerOk, CsdOk, QuitOk, PoolOk, RingOk, HandOk;
    var n, id := WorkerTurn(s, t), s.threads[t].pc.mbuf;
    PlacesStay(s, n, t);
    MemoryOk(s, n, t, id);
    CsdStays(s, n, t);
    WorkerWorks(s.threads[t], id, t, s.got[Input(t)], s.sent, s.memory);
  }

  /** The frame in the hand of a worker is the one its output ring waits for. */
  lemma OutputInTurn(th: Thread, t: nat, got: nat, sent: seq<nat>, memory: seq<Frame>)
    requires 1 <= t < CSD && |sent| == RINGS && |memory| == NUM_MBUFS
    requires WorkerOk(th, t, got, sent, memory) && th.pc.Worked?
    ensures Output(t, th.dis) < RINGS
    ensures memory[th.pc.mbuf] == Frame(Number(Output(t, th.dis), sent[Output(t, th.dis)]), History(Output(t, th.dis)))
  {
    if t <= 3 {
      SplitNumber(t, got - 1);
    }
  }

  /** Dealing a ring alternately halves its numbering. */
  lemma SplitNumber(t: nat, k: nat)
    requires 1 <= t <= 3
    ensures k % 2 == 0 ==> Number(t - 1, k) == Number(2 * t - 1, k / 2)
    ensures k % 2 == 1 ==> Number(t - 1, k) == Number(2 * t, k / 2)
  {
  }

  lemma WorkerGives(th: Thread, t: nat, got: nat, sent: seq<nat>, memory: seq<Frame>)
    requires 1 <= t < CSD && |sent| == RINGS && |memory| == NUM_MBUFS
    requires WorkerOk(th, t, got, sent, memory) && th.pc.Worked? && Output(t, th.dis) < RINGS
    ensures WorkerOk(Thread(Top, th.dis), t, got, sent[Output(t, th.dis) := sent[Output(t, th.dis)] + 1], memory)
  {
  }

  lemma WorkerGivesOk(s: State, t: nat)
    requires Inv(s) && 1 <= t < CSD && s.threads[t].pc.Worked?
    ensures Inv(WorkerTurn(s, t))
  {
    hide Queue, WorkerOk, CsdOk, QuitOk, PoolOk, RingOk, HandOk;
    var th := s.threads[t];
    var r, id, got := Output(t, th.dis), th.pc.mbuf, s.got[Input(t)];
    OutputInTurn(th, t, got, s.sent, s.memory);
    RoomForHand(s, t, r);
    var n := Give(s, t, r, id);
    PlacesGive(s, t, r, id);
    GiveQueues(s, t, r, id);
    CsdStays(s, n, t);
    forall u | 1 <= u < CSD
      ensures WorkerOk(n.threads[u], u, n.got[Input(u)], n.sent, n.memory)
    {
      if u == t {
        WorkerGives(th, t, got, s.sent, s.memory);
      } else {
        OutputsApart(t, u, th.dis);
        WorkerStaysSent(s.threads[u], u, s.got[Input(u)], s.sent, s.memory, r, n.sent[r]);
      }
    }
    OutputsApart(t, if t == 1 then 2 else 1, th.dis);
  }

  // ---------------------------------------------------------------------------
  // Turns of the CSD thread
  // ---------------------------------------------------------------------------

  /** Ring 7 + l carries lane l, and Number is strictly increasing along it. */
  lemma LaneOfNumber(l: nat, k: nat)
    requires l < 4
    ensures Lane(Number(7 + l, k)) == l
  {
    assert Number(7 + l, k) % 4 == First(7 + l) % 4;
  }

  /** Turns of the CSD thread leave the workers alone. */
  lemma WorkersStay(s: State, n: State)
    requires Sizes(s) && Sizes(n) && Workers(s)
    requires n.threads == s.threads[CSD := n.threads[CSD]] && n.read == s.read
    requires n.sent == s.sent && n.memory == s.memory && forall r :: 0 <= r < 7 ==> n.got[r] == s.got[r]
    ensures Workers(n)
  {
    hide WorkerOk;
    forall u | 1 <= u < CSD
      ensures WorkerOk(n.threads[u], u, n.got[Input(u)], n.sent, n.memory)
    {
      assert WorkerOk(s.threads[u], u, s.got[Input(u)], s.sent, s.memory);
    }
  }

  lemma CsdTakesOk(s: State, l: nat)
    requires Inv(s) && l < 4 && s.threads[CSD].pc.Trying? && s.rings[7 + l] != []
    ensures Inv(Take(s, CSD, 7 + l))
  {
    hide Queue, WorkerOk, PoolOk, RingOk, HandOk, Number, Lane, CountLane, LogOk;
    var n, id := Take(s, CSD, 7 + l), s.rings[7 + l][0];
    PlacesTake(s, CSD, 7 + l);
    TakeQueues(s, CSD, 7 + l);
    WorkersStay(s, n);
    LaneOfNumber(l, s.got[7 + l]);
    LaterHistory(l);
    assert LaneCount(s.threads[CSD], l, s.got, s.finished, s.memory);
    forall k | 0 <= k < 4
      ensures LaneCount(n.threads[CSD], k, n.got, n.finished, n.memory)
    {
      assert LaneCount(s.threads[CSD], k, s.got, s.finished, s.memory);
    }
  }

  lemma LaterHistory(l: nat)
    ensures History(7 + l) == History(7) && History(7) + [CyclicShift] == ALL_WORK
  {
  }

  lemma CsdWorksOk(s: State)
    requires Inv(s) && s.threads[CSD].pc.Loaded?
    ensures Inv(CsdTurn(s))
  {
    hide Queue, WorkerOk, PoolOk, RingOk, HandOk, Number, Lane, CountLane, LogOk;
    var n, id := CsdTurn(s), s.threads[CSD].pc.mbuf;
    PlacesStay(s, n, CSD);
    MemoryOk(s, n, CSD, id);
    LaterHistory(0);
    forall k | 0 <= k < 4
      ensures LaneCount(n.threads[CSD], k, n.got, n.finished, n.memory)
    {
      assert LaneCount(s.threads[CSD], k, s.got, s.finished, s.memory);
    }
  }

  lemma CsdChecksOk(s: State)
    requires Inv(s) && s.threads[CSD].pc.Worked?
    ensures Inv(CsdTurn(s))
  {
    hide Queue, WorkerOk, PoolOk, RingOk, HandOk, Number, Lane, CountLane, LogOk;
    var n := CsdTurn(s);
    PlacesStay(s, n, CSD);
    WorkersStay(s, n);
    forall k | 0 <= k < 4
      ensures LaneCount(n.threads[CSD], k, n.got, n.finished, n.memory)
    {
      assert LaneCount(s.threads[CSD], k, s.got, s.finished, s.memory);
    }
  }

  lemma LogGrows(log: seq<Frame>, f: Frame)
    requires LogOk(log) && f.done == ALL_WORK && NextOnLane(f, log)
    ensures LogOk(log + [f])
    ensures forall l :: CountLane(log + [f], l) == CountLane(log, l) + if Lane(f.number) == l then 1 else 0
  {
    hide NextOnLane;
    var longer := log + [f];
    assert longer[..|log|] == log;
    forall i | 0 <= i < |longer|
      ensures longer[i].done == ALL_WORK && NextOnLane(longer[i], longer[..i])
    {
      if i < |log| {
        assert longer[..i] == log[..i];
      }
    }
  }

  lemma CsdReturnsOk(s: State, id: Mbuf)
    requires Inv(s) && s.threads[CSD].pc == Returning(id)
    ensures Inv(Release(s, CSD, id))
  {
    hide Queue, WorkerOk, PoolOk, RingOk, HandOk, Number, Lane, CountLane, LogOk, NextOnLane;
    var n := Release(s, CSD, id);
    PlacesRelease(s, CSD, id);
    WorkersStay(s, n);
    LogGrows(s.finished, s.memory[id]);
    forall k | 0 <= k < 4
      ensures LaneCount(n.threads[CSD], k, n.got, n.finished, n.memory)
    {
      assert LaneCount(s.threads[CSD], k, s.got, s.finished, s.memory);
    }
  }

  // ---------------------------------------------------------------------------
  // All turns, all runs
  // ---------------------------------------------------------------------------

  lemma ReaderTurnOk(s: State, pick: Pick<Mbuf>)
    requires Inv(s)
    ensures Inv(ReaderTurn(s, pick))
  {
    hide Places, Queues, WorkerOk, CsdOk, QuitOk, Give, Take, Allocate, SetPc;
    match s.threads[0].pc
    case Top => WaitingOk(s, 0, if s.quit then Exited else Ready);
    case Ready =>
      if pick.Buffer? && pick.mbuf in s.pool {
        AllocateOk(s, pick.mbuf);
      } else {
        WaitingOk(s, 0, Top);
      }
    case Loaded(_) => ReadFrameOk(s, pick);
    case Worked(id) => ReaderGivesOk(s, id);
    case _ =>
  }

  lemma WorkerTurnOk(s: State, t: nat)
    requires Inv(s) && 1 <= t < CSD
    ensures Inv(WorkerTurn(s, t))
  {
    hide Places, Queues, WorkerOk, CsdOk, QuitOk, Give, Take, SetPc;
    match s.threads[t].pc
    case Top => WaitingOk(s, t, if s.quit then Exited else Ready);
    case Ready =>
      if s.rings[Input(t)] != [] {
        WorkerTakesOk(s, t);
      } else {
        WaitingOk(s, t, Top);
      }
    case Loaded(_) => WorkerWorksOk(s, t);
    case Worked(_) => WorkerGivesOk(s, t);
    case _ =>
  }

  lemma CsdTurnOk(s: State)
    requires Inv(s)
    ensures Inv(CsdTurn(s))
  {
    hide Places, Queues, Workers, CsdOk, Give, Take, Release, SetPc;
    match s.threads[CSD].pc
    case Top => WaitingOk(s, CSD, if s.quit then Exited else Trying(0));
    case Trying(l) =>
      if l < 4 && s.rings[7 + l] != [] {
        CsdTakesOk(s, l);
      } else {
        WaitingOk(s, CSD, if l < 3 then Trying(l + 1) else Top);
      }
    case Loaded(_) => CsdWorksOk(s);
    case Worked(_) => CsdChecksOk(s);
    case Returning(id) => CsdReturnsOk(s, id);
    case _ =>
  }

  /** Every turn of every thread keeps the invariant. */
  lemma TurnKeeps(s: State, t: ThreadId, pick: Pick<Mbuf>)
    requires Inv(s)
    ensures Inv(Turn(s, t, pick))
  {
    hide Inv, ReaderTurn, WorkerTurn, CsdTurn;
    if t == 0 {
      ReaderTurnOk(s, pick);
    } else if t == CSD {
      CsdTurnOk(s);
    } else {
      WorkerTurnOk(s, t);
    }
  }

  /** In every interleaving, from the start. */
  lemma {:induction false} RunKeeps(events: seq<Event<Mbuf>>)
    ensures Inv(After(Start(), events))
    decreases |events|
  {
    hide Inv, Turn, Start;
    if events == [] {
      StartOk();
    } else {
      var last := |events| - 1;
      RunKeeps(events[..last]);
      TurnKeeps(After(Start(), events[..last]), events[last].thread, events[last].pick);
    }
  }
}

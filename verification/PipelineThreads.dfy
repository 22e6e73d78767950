/**
 The threads of maindpdk_test_2.c as procedures on shared fields, one atomic action a call,
 and the proof that any schedule of calls is a run of the state machine.
 */
module PipelineThreads {
  import opened Schedules
  import opened Pipeline
  import opened PipelineInvariant
  import opened PipelineSteps

  const ENOENT: int := 2
  const ENOBUFS: int := 105

  class Machine {
    var pool: set<Mbuf>
    var rings: seq<seq<Mbuf>>
    var threads: seq<Thread>
    var memory: seq<Frame>
    var quit: bool
    var csdCount: nat
    var read: nat

    ghost var sent: seq<nat>
    ghost var got: seq<nat>
    ghost var place: seq<Place>
    ghost var finished: seq<Frame>

    ghost function Snapshot(): (s: State)
      reads this
    {
      State(pool, rings, threads, memory, quit, csdCount, read, sent, got, place, finished)
    }

    constructor ()
      ensures Snapshot() == Start() && Inv(Snapshot())
    {
      pool := set id: Mbuf | 0 <= id < NUM_MBUFS && IsMbuf(id);
      rings := seq(RINGS, _ => []);
      threads := seq(THREADS, _ => Thread(Top, 0));
      memory := seq(NUM_MBUFS, _ => Frame(0, []));
      quit := false;
      csdCount := 0;
      read := 0;
      sent := seq(RINGS, _ => 0);
      got := seq(RINGS, _ => 0);
      place := seq(NUM_MBUFS, _ => InPool);
      finished := [];
      new;
      StartOk();
      assert Snapshot() == Start();
    }

    /** rte_ring_dequeue by thread t: a negative code and no effect when the ring is empty. */
    method Dequeue(t: nat, r: nat) returns (code: int, id: Mbuf)
      requires Sizes(Snapshot()) && t < THREADS && r < RINGS
      modifies this`rings, this`got, this`place
      ensures code >= 0 <==> old(rings[r]) != []
      ensures code < 0 ==> code == -ENOENT && Snapshot() == old(Snapshot())
      ensures code >= 0 ==> id == old(rings[r][0])
      ensures Sizes(Snapshot())
      ensures code >= 0 ==> SetPc(Snapshot(), t, Loaded(id)) == Take(old(Snapshot()), t, r)
    {
      if rings[r] == [] {
        return -ENOENT, 0;
      }
      id := rings[r][0];
      rings := rings[r := rings[r][1..]];
      got := got[r := got[r] + 1];
      place := place[id := InHand(t)];
      return 0, id;
    }

    /** rte_ring_enqueue: a negative code when the ring is full; the caller's pointer is then
        the last one to the buffer. */
    method Enqueue(t: nat, r: nat, id: Mbuf) returns (code: int)
      requires Sizes(Snapshot()) && t < THREADS && r < RINGS
      modifies this`rings, this`sent, this`place
      ensures Sizes(Snapshot())
      ensures code == if |old(rings[r])| < RING_CAPACITY then 0 else -ENOBUFS
      ensures SetPc(Snapshot(), t, Top) == Give(old(Snapshot()), t, r, id)
    {
      if |rings[r]| < RING_CAPACITY {
        rings := rings[r := rings[r] + [id]];
        sent := sent[r := sent[r] + 1];
        place := place[id := InRing(r)];
        return 0;
      }
      place := place[id := Lost];
      return -ENOBUFS;
    }

    method MoveTo(t: nat, pc: Pc)
      requires Sizes(Snapshot()) && t < THREADS
      modifies this`threads
      ensures Snapshot() == SetPc(old(Snapshot()), t, pc)
    {
      threads := threads[t := threads[t].(pc := pc)];
    }

    /** One action of ReadData_Loop.  No failure code is ever produced, though none is looked at. */
    method ReadData(pick: Pick<Mbuf>) returns (ghost code: int)
      requires Inv(Snapshot())
      modifies this
      ensures Snapshot() == Turn(old(Snapshot()), 0, pick) && Inv(Snapshot()) && code >= 0
    {
      hide Inv, Places, Queues, Workers, CsdOk, QuitOk;
      TurnKeeps(Snapshot(), 0, pick);
      SizesKnown();
      code := 0;
      match threads[0].pc
      case Top =>
        MoveTo(0, if quit then Exited else Ready);
      case Ready =>
        if pick.Buffer? && pick.mbuf in pool {
          pool := pool - {pick.mbuf};
          place := place[pick.mbuf := InHand(0)];
          MoveTo(0, Loaded(pick.mbuf));
        } else {
          MoveTo(0, Top);
        }
      case Loaded(id) =>
        read := read + 1;
        memory := memory[id := Frame(read, [])];
        MoveTo(0, Worked(id));
      case Worked(id) =>
        HandHasRoom(0, 0);
        var rc := Enqueue(0, 0, id);
        code := rc;
        MoveTo(0, Top);
      case _ =>
    }

    /** One action of GenDataAndScramble_Loop, BCC_encoder_Loop1..2 or modulate_Loop1..4. */
    method Worker(t: nat) returns (ghost code: int)
      requires Inv(Snapshot()) && 1 <= t < CSD
      modifies this
      ensures Snapshot() == Turn(old(Snapshot()), t, Nothing) && Inv(Snapshot()) && code >= 0
    {
      hide Inv, Places, Queues, Workers, CsdOk, QuitOk;
      TurnKeeps(Snapshot(), t, Nothing);
      SizesKnown();
      code := 0;
      match threads[t].pc
      case Top =>
        MoveTo(t, if quit then Exited else Ready);
      case Ready =>
        var rc, id := Dequeue(t, Input(t));
        MoveTo(t, if rc >= 0 then Loaded(id) else Top);
      case Loaded(id) =>
        var dis := threads[t].dis + 1;
        if dis == 3 {
          dis := 1;
        }
        memory := memory[id := Frame(memory[id].number, memory[id].done + [Job(t)])];
        threads := threads[t := Thread(Worked(id), dis)];
      case Worked(id) =>
        var dis := threads[t].dis;
        HandHasRing(t);
        if t >= 4 {
          var rc := Enqueue(t, t + 3, id);
          code := rc;
        } else if dis == 1 {
          var rc := Enqueue(t, 2 * t - 1, id);
          code := rc;
        } else if dis == 2 {
          var rc := Enqueue(t, 2 * t, id);
          code := rc;
        }
        MoveTo(t, Top);
      case _ =>
    }

    /** One action of Data_CSD_Loop1: the lanes are tried in the order of their numbers. */
    method CyclicShifts()
      requires Inv(Snapshot())
      modifies this
      ensures Snapshot() == Turn(old(Snapshot()), CSD, Nothing) && Inv(Snapshot())
    {
      hide Inv, Places, Queues, Workers, CsdOk, QuitOk;
      TurnKeeps(Snapshot(), CSD, Nothing);
      SizesKnown();
      match threads[CSD].pc
      case Top =>
        MoveTo(CSD, if quit then Exited else Trying(0));
      case Trying(lane) =>
        if lane < 4 {
          var rc, id := Dequeue(CSD, 7 + lane);
          MoveTo(CSD, if rc >= 0 then Loaded(id) else if lane < 3 then Trying(lane + 1) else Top);
        } else {
          MoveTo(CSD, Top);
        }
      case Loaded(id) =>
        csdCount := csdCount + 1;
        memory := memory[id := Frame(memory[id].number, memory[id].done + [CyclicShift])];
        MoveTo(CSD, Worked(id));
      case Worked(id) =>
        if csdCount >= FRAME_LIMIT {
          quit := true;
        }
        MoveTo(CSD, Returning(id));
      case Returning(id) =>
        pool := pool + {id};
        place := place[id := InPool];
        finished := finished + [memory[id]];
        MoveTo(CSD, Top);
      case _ =>
    }

    /** Any schedule of the nine threads, from the start or from any state of a run. */
    method Run(events: seq<Event<Mbuf>>)
      requires Inv(Snapshot())
      modifies this
      ensures Snapshot() == After(old(Snapshot()), events) && Inv(Snapshot())
    {
      hide Inv, Places, Queues, Workers, CsdOk, QuitOk, Turn, After;
      SizesKnown();
      ghost var s := Snapshot();
      AfterNothing(s);
      assert events[..0] == [];
      for i := 0 to |events|
        invariant Inv(Snapshot()) && Sizes(s)
        invariant Snapshot() == After(s, events[..i])
      {
        var e := events[i];
        AfterOne(s, events, i);
        if e.thread == 0 {
          var _ := ReadData(e.pick);
        } else if e.thread == CSD {
          CyclicShifts();
          NoPick(After(s, events[..i]), e.thread, e.pick);
        } else {
          var _ := Worker(e.thread);
          NoPick(After(s, events[..i]), e.thread, e.pick);
        }
      }
      assert events[..|events|] == events;
    }

    lemma SizesKnown()
      requires Inv(Snapshot())
      ensures Sizes(Snapshot())
    {
    }

    lemma HandHasRoom(t: nat, r: nat)
      requires Inv(Snapshot()) && t < THREADS && r < RINGS && Holds(threads[t].pc)
      ensures |rings[r]| < RING_CAPACITY
    {
      RoomForHand(Snapshot(), t, r);
    }

    lemma HandHasRing(t: nat)
      requires Inv(Snapshot()) && 1 <= t < CSD && threads[t].pc.Worked?
      ensures Output(t, threads[t].dis) < RINGS
      ensures |rings[Output(t, threads[t].dis)]| < RING_CAPACITY
    {
      OutputInTurn(threads[t], t, got[Input(t)], sent, memory);
      RoomForHand(Snapshot(), t, Output(t, threads[t].dis));
    }
  }

  lemma AfterNothing(s: State)
    requires Sizes(s)
    ensures After(s, []) == s
  {
  }

  lemma AfterOne(s: State, events: seq<Event<Mbuf>>, i: nat)
    requires Sizes(s) && i < |events|
    ensures After(s, events[..i + 1]) == Turn(After(s, events[..i]), events[i].thread, events[i].pick)
  {
    hide Turn;
    assert events[..i + 1][..i] == events[..i];
  }

  /** Only the reader looks at the outcome of an allocation. */
  lemma NoPick(s: State, t: ThreadId, pick: Pick<Mbuf>)
    requires Sizes(s) && t != 0
    ensures Turn(s, t, pick) == Turn(s, t, Nothing)
  {
  }
}

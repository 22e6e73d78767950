/**
 The threads of maindpdk2.c as procedures on shared fields, one atomic action a call, and
 the proof that any schedule of calls is a run of the state machine.
 */
module DispatcherThreads {
  import opened Schedules
  import opened Dispatcher
  import opened DispatcherTheorems

  class Machine {
    const buffers: nat
    const capacity: nat
    var pool: multiset<Mbuf>
    var generate: seq<seq<Mbuf>>
    var retrieve: seq<seq<Mbuf>>
    var threads: seq<Pc>
    var dis: nat
    var quit: bool
    var returned: nat

    ghost var deals: seq<Deal>
    ghost var dropped: seq<Mbuf>
    ghost var lost: seq<Mbuf>

    ghost function Snapshot(): (s: State)
      reads this
    {
      State(capacity, pool, generate, retrieve, threads, dis, quit, returned, deals, dropped, lost)
    }

    constructor (buffers: nat, capacity: nat)
      ensures this.buffers == buffers && this.capacity == capacity
      ensures Snapshot() == Start(buffers, capacity) && Inv(Snapshot(), buffers, capacity)
    {
      this.buffers, this.capacity := buffers, capacity;
      pool := multiset(AllMbufs(buffers));
      generate := seq(LANES, _ => []);
      retrieve := seq(LANES, _ => []);
      threads := seq(THREADS, _ => Top);
      dis := 0;
      quit := false;
      returned := 0;
      deals, dropped, lost := [], [], [];
      new;
      StartOk(buffers, capacity);
      assert Snapshot() == Start(buffers, capacity);
    }

    method MoveTo(t: nat, pc: Pc)
      requires Sizes(Snapshot()) && t < THREADS
      modifies this`threads
      ensures Snapshot() == SetPc(old(Snapshot()), t, pc)
    {
      threads := threads[t := pc];
    }

    /** The ring test and the dequeue of a processing thread. */
    method TakeOne(t: nat, lane: nat)
      requires Sizes(Snapshot()) && t < THREADS && lane < LANES
      modifies this`generate, this`threads
      ensures Snapshot() == TakeFrame(old(Snapshot()), t, lane, Top)
    {
      if generate[lane] != [] {
        var id := generate[lane][0];
        generate := generate[lane := generate[lane][1..]];
        MoveTo(t, Serve(id));
      } else {
        MoveTo(t, Top);
      }
    }

    /** The enqueue of a frame just read, its return code ignored as well. */
    method PutOne(lane: nat, id: Mbuf)
      requires Sizes(Snapshot()) && lane < LANES
      modifies this`generate, this`threads, this`dropped
      ensures Snapshot() == Deliver(old(Snapshot()), lane, id)
    {
      if |generate[lane]| < capacity {
        generate := generate[lane := generate[lane] + [id]];
      } else {
        dropped := dropped + [id];
      }
      MoveTo(0, Top);
    }

    /** The enqueue of a processed frame, its return code ignored. */
    method GiveOne(t: nat, lane: nat, id: Mbuf)
      requires Sizes(Snapshot()) && t < THREADS && lane < LANES
      modifies this`retrieve, this`threads, this`lost
      ensures Snapshot() == GiveBack(old(Snapshot()), t, lane, id)
    {
      if |retrieve[lane]| < capacity {
        retrieve := retrieve[lane := retrieve[lane] + [id]];
      } else {
        lost := lost + [id];
      }
      MoveTo(t, Top);
    }

    /** The chain of tests on dis_count: the preferred ring unless it is full, else the ring
        that FindEmptyRing found. */
    method ChooseLane(n: nat) returns (lane: nat)
      requires Inv(Snapshot(), buffers, capacity) && threads[0].Counted? && threads[0].n == n
      ensures lane == Decide(Snapshot(), n) && lane < LANES && |generate[lane]| < capacity
    {
      if dis >= 0 && dis < INTERVAL {
        lane := 0;
      } else if dis >= INTERVAL && dis < INTERVAL * 2 {
        lane := 1;
      } else if dis >= INTERVAL * 2 && dis < INTERVAL * 3 {
        lane := 2;
      } else if dis >= INTERVAL * 3 && dis < INTERVAL * 4 {
        lane := 3;
      } else if dis >= INTERVAL * 4 && dis < INTERVAL * 5 {
        lane := 4;
      } else if dis >= INTERVAL * 5 && dis < INTERVAL * 6 {
        lane := 5;
      } else if dis >= INTERVAL * 6 && dis < INTERVAL * 7 {
        lane := 6;
      } else {
        lane := 7;
      }
      if |generate[lane]| >= capacity {
        lane := n - 1;
      }
    }

    /** One action of ReadData_Loop. */
    method Reader(pick: Pick<Mbuf>)
      requires Inv(Snapshot(), buffers, capacity)
      modifies this
      ensures Snapshot() == Turn(old(Snapshot()), 0, pick) && Inv(Snapshot(), buffers, capacity)
    {
      hide EachOnce, DealsOk, Occurrences;
      TurnKeeps(Snapshot(), 0, pick, buffers, capacity);
      match threads[0]
      case Top => MoveTo(0, if quit then Exited else Scan(0));
      case Scan(k) =>
        if |generate[k]| < capacity {
          MoveTo(0, Found(k + 1));
        } else {
          MoveTo(0, if k + 1 < LANES then Scan(k + 1) else Idle);
        }
      case Found(n) =>
        if pick.Buffer? && pick.mbuf in pool {
          pool := pool - multiset{pick.mbuf};
          MoveTo(0, Allocated(n, pick.mbuf));
        } else {
          MoveTo(0, Idle);
        }
      case Idle => TakeOne(0, LANES - 1);
      case Allocated(n, id) =>
        dis := dis + 1;
        if dis == INTERVAL * LANES {
          dis := 0;
        }
        MoveTo(0, Counted(n, id));
      case Counted(n, id) =>
        var lane := ChooseLane(n);
        deals := deals + [Deal(Preferred(dis), lane)];
        MoveTo(0, Put(lane, id));
      case Put(lane, id) =>
        PutOne(lane, id);
      case Serve(id) => MoveTo(0, Back(id));
      case Back(id) => GiveOne(0, LANES - 1, id);
      case _ =>
    }

    /** One action of GenerateData_Loop t. */
    method Worker(t: nat)
      requires Inv(Snapshot(), buffers, capacity) && 1 <= t < RETRIEVER
      modifies this
      ensures Snapshot() == Turn(old(Snapshot()), t, Nothing) && Inv(Snapshot(), buffers, capacity)
    {
      hide EachOnce, DealsOk, Occurrences;
      TurnKeeps(Snapshot(), t, Nothing, buffers, capacity);
      match threads[t]
      case Top => MoveTo(t, if quit then Exited else Idle);
      case Idle => TakeOne(t, t - 1);
      case Serve(id) => MoveTo(t, Back(id));
      case Back(id) => GiveOne(t, t - 1, id);
      case _ =>
    }

    /** One action of Data_Retrive_Loop. */
    method Retriever()
      requires Inv(Snapshot(), buffers, capacity)
      modifies this
      ensures Snapshot() == Turn(old(Snapshot()), RETRIEVER, Nothing) && Inv(Snapshot(), buffers, capacity)
    {
      hide EachOnce, DealsOk, Occurrences;
      TurnKeeps(Snapshot(), RETRIEVER, Nothing, buffers, capacity);
      match threads[RETRIEVER]
      case Top => MoveTo(RETRIEVER, if quit then Exited else Trying(0));
      case Trying(lane) =>
        if lane < LANES && retrieve[lane] != [] {
          var id := retrieve[lane][0];
          retrieve := retrieve[lane := retrieve[lane][1..]];
          returned := returned + 1;
          MoveTo(RETRIEVER, Returning(id));
        } else {
          MoveTo(RETRIEVER, if lane + 1 < LANES then Trying(lane + 1) else Top);
        }
      case Returning(id) =>
        pool := pool + multiset{id};
        MoveTo(RETRIEVER, Checking);
      case Checking =>
        if returned >= FRAME_LIMIT {
          quit := true;
        }
        MoveTo(RETRIEVER, Top);
      case _ =>
    }

    /** Any schedule of the nine threads. */
    method Run(events: seq<Event<Mbuf>>)
      requires Inv(Snapshot(), buffers, capacity)
      modifies this
      ensures Snapshot() == After(old(Snapshot()), events) && Inv(Snapshot(), buffers, capacity)
    {
      hide EachOnce, DealsOk, ReaderOk, Turn, After;
      ghost var s := Snapshot();
      AfterNothing(s);
      assert events[..0] == [];
      for i := 0 to |events|
        invariant Inv(Snapshot(), buffers, capacity)
        invariant Snapshot() == After(s, events[..i])
      {
        var e := events[i];
        AfterOne(s, events, i);
        NoPick(After(s, events[..i]), e.thread, e.pick);
        if e.thread == 0 {
          Reader(e.pick);
        } else if e.thread == RETRIEVER {
          Retriever();
        } else {
          Worker(e.thread);
        }
      }
      assert events[..|events|] == events;
    }
  }

  lemma AfterNothing(s: State)
    requires Sizes(s)
    ensures After(s, []) == s
  {
  }

  lemma AfterOne(s: State, events: seq<Event<Mbuf>>, i: nat)
    requires Sizes(s) && i < |events|
    ensures After(s, events[..i + 1]) == Turn(After(s, events[..i]), events[i].thread, events[i].pick)
  {
    hide Turn;
    assert events[..i + 1][..i] == events[..i];
  }

  /** Only the reader looks at the outcome of an allocation. */
  lemma NoPick(s: State, t: ThreadId, pick: Pick<Mbuf>)
    requires Sizes(s)
    ensures t != 0 ==> Turn(s, t, pick) == Turn(s, t, Nothing)
  {
  }
}

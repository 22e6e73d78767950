/** The dispatcher does its work: some schedule returns every frame and loses none, through
    all eight lanes, and the retrieving thread finds frames on every ring. */
module DispatcherProgress {
  import opened Schedules
  import opened Dispatcher
  import opened DispatcherTheorems
  import opened DispatcherLoss

  // ---------------------------------------------------------------------------
  // A schedule that returns every frame
  // ---------------------------------------------------------------------------

  /** The lane of the i-th frame, from 0, when no ring is ever full: four frames to each lane
      in turn, the first lane getting three in the very first round. */
  function LaneOf(i: nat): (lane: nat)
    ensures lane < LANES
  {
    (i + 1) % 32 / 4
  }

  /** The first n frames have gone through their lanes and are back, and none was lost. */
  ghost predicate AtRest(s: State, buffers: nat, capacity: nat, n: nat) {
    && Calm(s, buffers, capacity) && n <= FRAME_LIMIT && (s.quit <==> n == FRAME_LIMIT)
    && (forall r :: 0 <= r < LANES ==> s.retrieve[r] == [])
    && |s.pool| == buffers && s.returned == n && s.dis == n % 32
    && s.lost == [] && s.dropped == []
    && |s.deals| == n && forall i :: 0 <= i < n ==> s.deals[i] == Deal(LaneOf(i), LaneOf(i))
  }

  lemma NextDis(n: nat)
    ensures CountUp(n % 32) == (n + 1) % 32 && CountUp(n % 32) / INTERVAL == LaneOf(n)
  {
  }

  /** One frame through the lane whose turn it is. */
  lemma OneFrame(s: State, buffers: nat, capacity: nat, n: nat) returns (m: State)
    requires AtRest(s, buffers, capacity, n) && n < FRAME_LIMIT && buffers >= 1
    ensures AtRest(m, buffers, capacity, n + 1)
  {
    hide Reachable, Turn, LaneOf, CountUp;
    NextDis(n);
    var id :| id in s.pool;
    var dealt, lane := DealOne(s, buffers, capacity, id);
    var back: State;
    if lane == 7 {
      back := ServeEighth(dealt, buffers, capacity, id);
      assert s.retrieve[7] + [id] == [id];
    } else {
      back := ServeOne(dealt, buffers, capacity, lane, id);
    }
    m := RetrieveOne(back, buffers, capacity, lane, id);
    assert m.pool == s.pool;
  }

  lemma {:induction false} RestAfter(buffers: nat, capacity: nat, n: nat) returns (s: State)
    requires buffers >= 1 && capacity >= 1 && n <= FRAME_LIMIT
    ensures AtRest(s, buffers, capacity, n)
  {
    if n == 0 {
      s := Start(buffers, capacity);
      assert After(s, []) == s;
      assert |multiset(AllMbufs(buffers))| == buffers;
    } else {
      hide AtRest;
      s := RestAfter(buffers, capacity, n - 1);
      s := OneFrame(s, buffers, capacity, n - 1);
    }
  }

  lemma {:induction false} ExitFrom(s: State, buffers: nat, capacity: nat, k: nat) returns (m: State)
    requires Reachable(s, buffers, capacity) && Sizes(s) && s.quit && k <= THREADS
    requires forall t :: 0 <= t < THREADS ==> s.threads[t] == if t < k then Exited else Top
    ensures Reachable(m, buffers, capacity) && m == s.(threads := m.threads) && |m.threads| == THREADS
    ensures forall t :: 0 <= t < THREADS ==> m.threads[t] == Exited
    decreases THREADS - k
  {
    hide Reachable;
    if k == THREADS {
      m := s;
    } else {
      Reach(s, k, Nothing, buffers, capacity);
      var a := Turn(s, k, Nothing);
      assert a == SetPc(s, k, Exited);
      m := ExitFrom(a, buffers, capacity, k + 1);
    }
  }

  /** With at least one buffer and one entry a ring: for every n up to the limit some schedule
      returns n frames, loses none, drops none, and deals them to the eight lanes in turn; all
      buffers are back in the pool, and quit is set exactly if that is the limit. */
  lemma FramesReturn(buffers: nat, capacity: nat, n: nat)
    requires buffers >= 1 && capacity >= 1 && n <= FRAME_LIMIT
    ensures exists events: seq<Event<Mbuf>> :: var s := After(Start(buffers, capacity), events);
      && s.returned == n && (s.quit <==> n == FRAME_LIMIT)
      && s.lost == [] && s.dropped == [] && |s.pool| == buffers
      && |s.deals| == n && forall i :: 0 <= i < n ==> s.deals[i].chosen == (i + 1) % 32 / 4
  {
    hide Start, After;
    var s := RestAfter(buffers, capacity, n);
    var events :| After(Start(buffers, capacity), events) == s;
    assert After(Start(buffers, capacity), events).returned == n;
  }

  /** With the configured pool and rings: a state in which all threads have returned after all
      frames, with every buffer back in the pool, is reached. */
  lemma AllThreadsReturn()
    ensures exists events: seq<Event<Mbuf>> :: var s := After(Start(NUM_MBUFS, RING_CAPACITY), events);
      && s.returned == FRAME_LIMIT && s.lost == [] && |s.pool| == NUM_MBUFS
      && forall t :: 0 <= t < THREADS ==> s.threads[t] == Exited
  {
    hide Start, After;
    var s := RestAfter(NUM_MBUFS, RING_CAPACITY, FRAME_LIMIT);
    var m := ExitFrom(s, NUM_MBUFS, RING_CAPACITY, 0);
    var events :| After(Start(NUM_MBUFS, RING_CAPACITY), events) == m;
    assert After(Start(NUM_MBUFS, RING_CAPACITY), events).returned == FRAME_LIMIT;
  }

  // ---------------------------------------------------------------------------
  // The retrieving thread finds what there is
  // ---------------------------------------------------------------------------

  function Turns(events: seq<Event<Mbuf>>, t: ThreadId): (n: nat) {
    if events == [] then 0
    else Turns(events[..|events| - 1], t) + if events[|events| - 1].thread == t then 1 else 0
  }

  /** Turns of the retrieving thread until it takes a frame, if `lane` has one to offer. */
  function Steps(pc: Pc, lane: nat): (n: nat)
    ensures n <= 16
  {
    match pc
    case Top => 9
    case Trying(k) => if k >= LANES then 10 else if k <= lane then LANES - k else 17 - k
    case Returning(_) => 11
    case Checking => 10
    case _ => 0
  }

  predicate InItsLoop(pc: Pc) {
    pc.Top? || pc.Trying? || pc.Returning? || pc.Checking?
  }

  /** A frame on a way back, and the program has not stopped. */
  ghost predicate Offers(s: State, lane: nat) {
    Sizes(s) && lane < LANES && !s.quit && s.retrieve[lane] != [] && InItsLoop(s.threads[RETRIEVER])
  }

  /** Nothing was taken from a way back, and the retrieving thread stands where it stood. */
  ghost predicate Undisturbed(s: State, m: State, lane: nat)
    requires Sizes(s) && Sizes(m) && lane < LANES
  {
    && m.threads[RETRIEVER] == s.threads[RETRIEVER] && m.quit == s.quit && m.returned == s.returned
    && (s.retrieve[lane] != [] ==> m.retrieve[lane] != [])
  }

  lemma RingActions(s: State, t: nat, r: nat, id: Mbuf, lane: nat)
    requires Sizes(s) && t < RETRIEVER && r < LANES && lane < LANES
    ensures Undisturbed(s, GiveBack(s, t, r, id), lane)
    ensures Undisturbed(s, TakeFrame(s, t, r, Top), lane)
  {
  }

  lemma DeliverUndisturbed(s: State, r: nat, id: Mbuf, lane: nat)
    requires Sizes(s) && lane < LANES
    ensures Undisturbed(s, Deliver(s, r, id), lane)
  {
  }

  lemma ReaderUndisturbed(s: State, pick: Pick<Mbuf>, lane: nat)
    requires Sizes(s) && lane < LANES
    ensures Undisturbed(s, ReaderTurn(s, pick), lane)
  {
    hide CountUp, Decide, GiveBack, TakeFrame, Deliver;
    match s.threads[0]
    case Back(id) => RingActions(s, 0, LANES - 1, id, lane);
    case Idle => RingActions(s, 0, LANES - 1, 0, lane);
    case Put(r, id) => DeliverUndisturbed(s, r, id, lane);
    case _ =>
  }

  lemma WorkerUndisturbed(s: State, t: nat, lane: nat)
    requires Sizes(s) && 1 <= t < RETRIEVER && lane < LANES
    ensures Undisturbed(s, WorkerTurn(s, t), lane)
  {
    hide GiveBack, TakeFrame;
    match s.threads[t]
    case Back(id) => RingActions(s, t, t - 1, id, lane);
    case Idle => RingActions(s, t, t - 1, 0, lane);
    case _ =>
  }

  lemma RetrieverAdvances(s: State, lane: nat)
    requires Offers(s, lane)
    ensures var m := RetrieverTurn(s);
      m.quit || m.returned > s.returned
      || (m.returned == s.returned && Offers(m, lane)
          && Steps(m.threads[RETRIEVER], lane) < Steps(s.threads[RETRIEVER], lane))
  {
  }

  lemma StepsDrop(s: State, t: ThreadId, pick: Pick<Mbuf>, lane: nat)
    requires Offers(s, lane)
    ensures var m := Turn(s, t, pick);
      m.quit || m.returned > s.returned
      || (m.returned == s.returned && Offers(m, lane)
          && Steps(m.threads[RETRIEVER], lane) <= Steps(s.threads[RETRIEVER], lane) - if t == RETRIEVER then 1 else 0)
  {
    hide RetrieverTurn, Steps;
    if t == RETRIEVER {
      RetrieverAdvances(s, lane);
    } else {
      hide ReaderTurn, WorkerTurn;
      if t == 0 {
        ReaderUndisturbed(s, pick, lane);
      } else {
        WorkerUndisturbed(s, t, lane);
      }
    }
  }

  lemma ReturnedGrows(s: State, t: ThreadId, pick: Pick<Mbuf>)
    requires Sizes(s)
    ensures Turn(s, t, pick).returned >= s.returned && (s.quit ==> Turn(s, t, pick).quit)
  {
  }

  lemma {:induction false} OfferStands(s: State, events: seq<Event<Mbuf>>, lane: nat)
    requires Sizes(s) && Offers(s, lane)
    ensures var m := After(s, events);
      m.quit || m.returned > s.returned
      || (m.returned == s.returned && Offers(m, lane)
          && Steps(m.threads[RETRIEVER], lane) + Turns(events, RETRIEVER) <= Steps(s.threads[RETRIEVER], lane))
    decreases |events|
  {
    hide Turn, Steps;
    if events != [] {
      var last := |events| - 1;
      var m, e := After(s, events[..last]), events[last];
      OfferStands(s, events[..last], lane);
      ReturnedGrows(m, e.thread, e.pick);
      if Offers(m, lane) {
        StepsDrop(m, e.thread, e.pick, lane);
      }
    }
  }

  /** The retrieving thread leaves its loop only after quit. */
  lemma {:induction false} StaysInLoop(s: State, events: seq<Event<Mbuf>>)
    requires Sizes(s) && InItsLoop(s.threads[RETRIEVER])
    ensures After(s, events).quit || InItsLoop(After(s, events).threads[RETRIEVER])
    decreases |events|
  {
    hide ReaderTurn, WorkerTurn;
    if events != [] {
      var last := |events| - 1;
      var m, e := After(s, events[..last]), events[last];
      StaysInLoop(s, events[..last]);
      if e.thread == 0 {
        ReaderUndisturbed(m, e.pick, 0);
      } else if e.thread != RETRIEVER {
        WorkerUndisturbed(m, e.thread, 0);
      }
    }
  }

  /** In every run: whichever of the eight ways back holds a frame, the retrieving thread takes
      one within 16 of its turns, whatever the other threads do meanwhile, unless the program
      stops before. */
  lemma RetrieverFinds(buffers: nat, capacity: nat, before: seq<Event<Mbuf>>, events: seq<Event<Mbuf>>, lane: nat)
    requires lane < LANES && Turns(events, RETRIEVER) >= 16
    requires !After(Start(buffers, capacity), before).quit
    requires After(Start(buffers, capacity), before).retrieve[lane] != []
    ensures var s := After(Start(buffers, capacity), before); var m := After(s, events);
      m.quit || m.returned > s.returned
  {
    hide After, Turns;
    StaysInLoop(Start(buffers, capacity), before);
    OfferStands(After(Start(buffers, capacity), before), events, lane);
  }

  // ---------------------------------------------------------------------------
  // The ring that the reader finds
  // ---------------------------------------------------------------------------

  /** Turns of the reader alone. */
  function ReaderTurns(n: nat): (events: seq<Event<Mbuf>>)
    ensures |events| == n
  {
    seq(n, _ => Event(0, Nothing))
  }

  /** FindEmptyRing: left alone, the reader finds the first ring that is not full, or none if
      all eight are. */
  lemma {:induction false} FindsFirst(s: State, k: nat)
    requires Sizes(s) && s.threads[0] == Top && !s.quit && k < LANES
    requires forall r :: 0 <= r < k ==> Full(s, s.generate[r])
    ensures After(s, ReaderTurns(k + 1)) == SetPc(s, 0, Scan(k))
    ensures !Full(s, s.generate[k]) ==> After(s, ReaderTurns(k + 2)) == SetPc(s, 0, Found(k + 1))
    ensures k == LANES - 1 && Full(s, s.generate[k]) ==> After(s, ReaderTurns(k + 2)) == SetPc(s, 0, Idle)
    decreases k
  {
    hide Full;
    assert ReaderTurns(k + 2)[..k + 1] == ReaderTurns(k + 1) && ReaderTurns(k + 1)[..k] == ReaderTurns(k);
    if k > 0 {
      FindsFirst(s, k - 1);
      OneScan(s, k - 1);
    } else {
      assert After(s, ReaderTurns(0)) == s;
    }
    OneScan(s, k);
  }

  lemma OneScan(s: State, k: nat)
    requires Sizes(s) && k < LANES
    ensures ReaderTurn(SetPc(s, 0, Scan(k)), Nothing)
      == SetPc(s, 0, if !Full(s, s.generate[k]) then Found(k + 1) else if k + 1 < LANES then Scan(k + 1) else Idle)
  {
  }

  // ---------------------------------------------------------------------------
  // First in, first out
  // ---------------------------------------------------------------------------

  /** What a turn puts on GenerateData ring lane, and what it takes from it: the frame that the
      reader had in its hand, and the frame that a processing thread has in its hand after. */
  function Dealt(s: State, t: ThreadId, lane: nat): (ids: seq<Mbuf>)
    requires Sizes(s) && lane < LANES
  {
    if t == 0 && s.threads[0].Put? && s.threads[0].lane == lane && !Full(s, s.generate[lane])
    then [s.threads[0].mbuf] else []
  }

  function Served(s: State, t: ThreadId, pick: Pick<Mbuf>, lane: nat): (ids: seq<Mbuf>)
    requires Sizes(s) && lane < LANES
  {
    var hand := Turn(s, t, pick).threads[t];
    if t < RETRIEVER && s.threads[t].Idle? && hand.Serve? && ReturnLane(t) == lane then [hand.mbuf] else []
  }

  /** The same for RetriveData ring lane. */
  function GivenBack(s: State, t: ThreadId, lane: nat): (ids: seq<Mbuf>)
    requires Sizes(s) && lane < LANES
  {
    if t < RETRIEVER && s.threads[t].Back? && ReturnLane(t) == lane && !Full(s, s.retrieve[lane])
    then [s.threads[t].mbuf] else []
  }

  function Collected(s: State, t: ThreadId, pick: Pick<Mbuf>, lane: nat): (ids: seq<Mbuf>)
    requires Sizes(s) && lane < LANES
  {
    var hand := Turn(s, t, pick).threads[t];
    if t == RETRIEVER && s.threads[t] == Trying(lane) && hand.Returning? then [hand.mbuf] else []
  }

  /** What a run puts on and takes from the two rings of a lane, in order. */
  datatype Traffic = Traffic(dealt: seq<Mbuf>, served: seq<Mbuf>, givenBack: seq<Mbuf>, collected: seq<Mbuf>)

  function TrafficOf(s: State, events: seq<Event<Mbuf>>, lane: nat): (f: Traffic)
    requires Sizes(s) && lane < LANES
  {
    if events == [] then Traffic([], [], [], [])
    else
      var last := |events| - 1;
      var f, m, e := TrafficOf(s, events[..last], lane), After(s, events[..last]), events[last];
      Traffic(f.dealt + Dealt(m, e.thread, lane), f.served + Served(m, e.thread, e.pick, lane),
              f.givenBack + GivenBack(m, e.thread, lane), f.collected + Collected(m, e.thread, e.pick, lane))
  }

  lemma TakeIsFifo(s: State, t: nat, r: nat, lane: nat)
    requires Sizes(s) && t < RETRIEVER && r < LANES && lane < LANES
    ensures var m := TakeFrame(s, t, r, Top);
      && s.generate[lane] == (if m.threads[t].Serve? && r == lane then [m.threads[t].mbuf] else []) + m.generate[lane]
      && m.retrieve == s.retrieve
  {
  }

  lemma DeliverIsFifo(s: State, r: nat, id: Mbuf, lane: nat)
    requires Sizes(s) && lane < LANES
    ensures var m := Deliver(s, r, id);
      && s.generate[lane] + (if r == lane && !Full(s, s.generate[lane]) then [id] else []) == m.generate[lane]
      && m.retrieve == s.retrieve
  {
  }

  lemma GiveBackIsFifo(s: State, t: nat, r: nat, id: Mbuf, lane: nat)
    requires Sizes(s) && t < RETRIEVER && r < LANES && lane < LANES
    ensures var m := GiveBack(s, t, r, id);
      && s.retrieve[lane] + (if r == lane && !Full(s, s.retrieve[lane]) then [id] else []) == m.retrieve[lane]
      && m.generate == s.generate
  {
  }

  lemma WorkerTurnIsFifo(s: State, t: nat, lane: nat)
    requires Sizes(s) && 1 <= t < RETRIEVER && lane < LANES
    ensures var m := WorkerTurn(s, t);
      && s.generate[lane] + Dealt(s, t, lane) == Served(s, t, Nothing, lane) + m.generate[lane]
      && s.retrieve[lane] + GivenBack(s, t, lane) == Collected(s, t, Nothing, lane) + m.retrieve[lane]
  {
    hide TakeFrame, GiveBack, Full;
    match s.threads[t]
    case Idle => TakeIsFifo(s, t, t - 1, lane);
    case Back(id) => GiveBackIsFifo(s, t, t - 1, id, lane);
    case _ =>
  }

  /** The reader touches the rings in three of its actions only. */
  lemma ReaderAtRings(s: State, pick: Pick<Mbuf>)
    requires Sizes(s)
    ensures var m := ReaderTurn(s, pick);
      match s.threads[0]
      case Idle => m == TakeFrame(s, 0, LANES - 1, Top)
      case Put(r, id) => m == Deliver(s, r, id)
      case Back(id) => m == GiveBack(s, 0, LANES - 1, id)
      case _ => m.generate == s.generate && m.retrieve == s.retrieve
  {
    hide CountUp, Decide, TakeFrame, Deliver, GiveBack, Full;
  }

  lemma ReaderTurnIsFifo(s: State, pick: Pick<Mbuf>, lane: nat)
    requires Sizes(s) && lane < LANES
    ensures var m := ReaderTurn(s, pick);
      && s.generate[lane] + Dealt(s, 0, lane) == Served(s, 0, pick, lane) + m.generate[lane]
      && s.retrieve[lane] + GivenBack(s, 0, lane) == Collected(s, 0, pick, lane) + m.retrieve[lane]
  {
    hide ReaderTurn, TakeFrame, Deliver, GiveBack, Full;
    ReaderAtRings(s, pick);
    match s.threads[0]
    case Idle => TakeIsFifo(s, 0, LANES - 1, lane);
    case Put(r, id) => DeliverIsFifo(s, r, id, lane);
    case Back(id) => GiveBackIsFifo(s, 0, LANES - 1, id, lane);
    case _ =>
  }

  lemma RetrieverTurnIsFifo(s: State, lane: nat)
    requires Sizes(s) && lane < LANES
    ensures var m := RetrieverTurn(s);
      && s.generate[lane] + Dealt(s, RETRIEVER, lane) == Served(s, RETRIEVER, Nothing, lane) + m.generate[lane]
      && s.retrieve[lane] + GivenBack(s, RETRIEVER, lane) == Collected(s, RETRIEVER, Nothing, lane) + m.retrieve[lane]
  {
  }

  /** Every ring is first in, first out: over any run, what was on the ring and what was put on
      it is, in this order, what was taken from it and what is on it after. */
  lemma {:induction false} LanesAreFifo(s: State, events: seq<Event<Mbuf>>, lane: nat)
    requires Sizes(s) && lane < LANES
    ensures var f, m := TrafficOf(s, events, lane), After(s, events);
      && s.generate[lane] + f.dealt == f.served + m.generate[lane]
      && s.retrieve[lane] + f.givenBack == f.collected + m.retrieve[lane]
    decreases |events|
  {
    hide Turn, Dealt, Served, GivenBack, Collected;
    if events != [] {
      var last := |events| - 1;
      var f, m, e := TrafficOf(s, events[..last], lane), After(s, events[..last]), events[last];
      LanesAreFifo(s, events[..last], lane);
      TurnIsFifo(m, e.thread, e.pick, lane);
      Regroup(s.generate[lane], f.dealt, Dealt(m, e.thread, lane), f.served, m.generate[lane],
              Served(m, e.thread, e.pick, lane), Turn(m, e.thread, e.pick).generate[lane]);
      Regroup(s.retrieve[lane], f.givenBack, GivenBack(m, e.thread, lane), f.collected, m.retrieve[lane],
              Collected(m, e.thread, e.pick, lane), Turn(m, e.thread, e.pick).retrieve[lane]);
    }
  }

  lemma TurnIsFifo(s: State, t: ThreadId, pick: Pick<Mbuf>, lane: nat)
    requires Sizes(s) && lane < LANES
    ensures var m := Turn(s, t, pick);
      && s.generate[lane] + Dealt(s, t, lane) == Served(s, t, pick, lane) + m.generate[lane]
      && s.retrieve[lane] + GivenBack(s, t, lane) == Collected(s, t, pick, lane) + m.retrieve[lane]
  {
    hide ReaderTurn, WorkerTurn, RetrieverTurn;
    if t == 0 {
      ReaderTurnIsFifo(s, pick, lane);
    } else if t == RETRIEVER {
      RetrieverTurnIsFifo(s, lane);
    } else {
      WorkerTurnIsFifo(s, t, lane);
    }
  }

  lemma Regroup(was: seq<Mbuf>, put: seq<Mbuf>, more: seq<Mbuf>, got: seq<Mbuf>, mid: seq<Mbuf>,
                next: seq<Mbuf>, now: seq<Mbuf>)
    requires was + put == got + mid && mid + more == next + now
    ensures was + (put + more) == (got + next) + now
  {
    assert was + (put + more) == (was + put) + more == got + (mid + more) == (got + next) + now;
  }
}

/**
 The enqueue on the way back, whose return code is ignored as well, can fail: some schedule
 loses a buffer exactly when there are more buffers than a ring has usable entries.
 */
module DispatcherLoss {
  import opened Schedules
  import opened DistinctSequences
  import opened Dispatcher
  import opened DispatcherTheorems

  // ---------------------------------------------------------------------------
  // When a buffer is lost
  // ---------------------------------------------------------------------------

  /** The lane on which a processing thread gives its frames back. */
  function ReturnLane(t: nat): (lane: nat)
    requires t < RETRIEVER
    ensures lane < LANES
  {
    if t == 0 then LANES - 1 else t - 1
  }

  /** A thread with a processed frame in its hand meets a full RetriveData ring. */
  predicate MeetsFullRing(s: State, t: ThreadId)
    requires Sizes(s)
  {
    t < RETRIEVER && s.threads[t].Back? && Full(s, s.retrieve[ReturnLane(t)])
  }

  lemma LostInTurn(s: State, t: ThreadId, pick: Pick<Mbuf>)
    requires Sizes(s)
    ensures MeetsFullRing(s, t) ==> Turn(s, t, pick).lost == s.lost + [s.threads[t].mbuf]
    ensures !MeetsFullRing(s, t) ==> Turn(s, t, pick).lost == s.lost
  {
  }

  /** Does turn i of a run meet a full ring? */
  predicate MeetsAt(s: State, events: seq<Event<Mbuf>>, i: nat)
    requires Sizes(s) && i < |events|
  {
    MeetsFullRing(After(s, events[..i]), events[i].thread)
  }

  /** A run from the start loses buffers exactly if one of its turns meets a full ring. */
  lemma {:induction false} LostIffMet(buffers: nat, capacity: nat, events: seq<Event<Mbuf>>)
    ensures After(Start(buffers, capacity), events).lost != []
      <==> exists i :: 0 <= i < |events| && MeetsAt(Start(buffers, capacity), events, i)
    decreases |events|
  {
    hide Turn, MeetsFullRing, MeetsAt;
    var s := Start(buffers, capacity);
    if events != [] {
      var last := |events| - 1;
      var front := events[..last];
      LostIffMet(buffers, capacity, front);
      LostInTurn(After(s, front), events[last].thread, events[last].pick);
      MeetsLast(s, events);
      forall i | 0 <= i < last
        ensures MeetsAt(s, events, i) == MeetsAt(s, front, i)
      {
        MeetsEarlier(s, events, i);
      }
    }
  }

  lemma MeetsLast(s: State, events: seq<Event<Mbuf>>)
    requires Sizes(s) && events != []
    ensures var last := |events| - 1;
      MeetsAt(s, events, last) == MeetsFullRing(After(s, events[..last]), events[last].thread)
  {
  }

  lemma MeetsEarlier(s: State, events: seq<Event<Mbuf>>, i: nat)
    requires Sizes(s) && i < |events| - 1
    ensures MeetsAt(s, events, i) == MeetsAt(s, events[..|events| - 1], i)
  {
    hide After, MeetsFullRing;
    assert events[..|events| - 1][..i] == events[..i];
  }

  // ---------------------------------------------------------------------------
  // Few buffers: nothing is ever lost
  // ---------------------------------------------------------------------------

  lemma {:induction false} OnRingsHas(rings: seq<seq<Mbuf>>, r: nat, id: Mbuf)
    requires r < |rings|
    ensures OnRings(rings, id) >= multiset(rings[r])[id]
    decreases r
  {
    if r > 0 {
      OnRingsHas(rings[1..], r - 1, id);
    }
  }

  lemma {:induction false} InHandsHas(threads: seq<Pc>, t: nat, id: Mbuf)
    requires t < |threads|
    ensures InHands(threads, id) >= Held(threads[t], id)
    decreases t
  {
    if t > 0 {
      InHandsHas(threads[1..], t - 1, id);
    }
  }

  /** While a thread has a buffer in its hand, no ring holds all the others and it too. */
  lemma RoomForHand(s: State, buffers: nat, t: nat, lane: nat)
    requires Sizes(s) && EachOnce(s, buffers) && t < THREADS && s.threads[t].Back? && lane < LANES
    ensures |s.retrieve[lane]| < buffers
  {
    hide OnRings, InHands;
    var ring, held := s.retrieve[lane], s.threads[t].mbuf;
    forall id: Mbuf
      ensures Times(ring, id) + Held(s.threads[t], id) <= if id < buffers then 1 else 0
    {
      OnRingsHas(s.retrieve, lane, id);
      InHandsHas(s.threads, t, id);
      assert Occurrences(s, id) == if id < buffers then 1 else 0;
    }
    assert Held(s.threads[t], held) == 1;
    TimesOnce(ring);
    BelowCount(buffers);
    forall id: Mbuf | id in ring
      ensures id in Below(buffers) - {held}
    {
      assert Times(ring, id) >= 1;
    }
    DistinctBound(ring, Below(buffers) - {held});
    assert |Below(buffers) - {held}| == buffers - 1;
  }

  function Times(ring: seq<Mbuf>, id: Mbuf): (n: nat) {
    multiset(ring)[id]
  }

  lemma TimesOnce(ring: seq<Mbuf>)
    requires forall id: Mbuf :: Times(ring, id) <= 1
    ensures Distinct(ring)
  {
    forall i, j | 0 <= i < j < |ring|
      ensures ring[i] != ring[j]
    {
      var x := ring[j];
      assert ring == ring[..j] + [x] + ring[j + 1..];
      assert Times(ring, x) >= Times(ring[..j], x) + 1;
      assert ring[i] in ring[..j];
    }
  }

  /** With no more buffers than entries no schedule loses a buffer. */
  lemma {:induction false} FewBuffersNoLoss(buffers: nat, capacity: nat, events: seq<Event<Mbuf>>)
    requires buffers <= capacity
    ensures After(Start(buffers, capacity), events).lost == []
    decreases |events|
  {
    hide Turn, EachOnce, ReaderOk, DealsOk;
    if events != [] {
      var last := |events| - 1;
      var s, t := After(Start(buffers, capacity), events[..last]), events[last].thread;
      FewBuffersNoLoss(buffers, capacity, events[..last]);
      RunKeeps(buffers, capacity, events[..last]);
      if t < RETRIEVER && s.threads[t].Back? {
        RoomForHand(s, buffers, t, ReturnLane(t));
      }
      LostInTurn(s, t, events[last].pick);
    }
  }

  // ---------------------------------------------------------------------------
  // Rings without entries: nothing ever moves
  // ---------------------------------------------------------------------------

  predicate HandEmpty(pc: Pc) {
    pc.Top? || pc.Scan? || pc.Idle? || pc.Trying? || pc.Exited?
  }

  ghost predicate Stuck(s: State) {
    && Sizes(s) && s.capacity == 0 && s.lost == []
    && (forall t :: 0 <= t < THREADS ==> HandEmpty(s.threads[t]))
    && (forall r :: 0 <= r < LANES ==> s.generate[r] == [] && s.retrieve[r] == [])
  }

  lemma StuckStays(s: State, t: ThreadId, pick: Pick<Mbuf>)
    requires Stuck(s)
    ensures Stuck(Turn(s, t, pick))
  {
  }

  lemma {:induction false} NoEntriesNoLoss(buffers: nat, events: seq<Event<Mbuf>>)
    ensures Stuck(After(Start(buffers, 0), events))
    decreases |events|
  {
    hide Turn;
    if events != [] {
      var last := |events| - 1;
      NoEntriesNoLoss(buffers, events[..last]);
      StuckStays(After(Start(buffers, 0), events[..last]), events[last].thread, events[last].pick);
    }
  }

  // ---------------------------------------------------------------------------
  // More buffers than entries: a schedule that loses one
  // ---------------------------------------------------------------------------

  ghost predicate Reachable(s: State, buffers: nat, capacity: nat) {
    exists events :: After(Start(buffers, capacity), events) == s
  }

  lemma Reach(s: State, t: ThreadId, pick: Pick<Mbuf>, buffers: nat, capacity: nat)
    requires Reachable(s, buffers, capacity)
    ensures Sizes(s) && Reachable(Turn(s, t, pick), buffers, capacity)
  {
    hide Turn, Start;
    var events :| After(Start(buffers, capacity), events) == s;
    var more := events + [Event(t, pick)];
    assert more[..|events|] == events;
    assert After(Start(buffers, capacity), more) == Turn(s, t, pick);
  }

  /** How many frames the other lanes return before the eighth lane's next one, at most. */
  function Away(dis: nat): (n: nat) {
    if dis <= 27 then 27 - dis else if dis <= 31 then 59 - dis else 0
  }

  /** All threads are between two frames, and no frame is waiting to be processed. */
  ghost predicate Calm(s: State, buffers: nat, capacity: nat) {
    && Reachable(s, buffers, capacity) && Sizes(s) && s.capacity == capacity >= 1 && s.dis < 32
    && (forall t :: 0 <= t < THREADS ==> s.threads[t] == Top)
    && (forall r :: 0 <= r < LANES ==> s.generate[r] == [])
  }

  /** Frames wait on the eighth way back and nowhere else, for the retrieving thread has found
      the other lanes first. */
  ghost predicate Waiting(s: State, buffers: nat, capacity: nat) {
    && Calm(s, buffers, capacity) && !s.quit
    && (forall r :: 0 <= r < LANES - 1 ==> s.retrieve[r] == [])
    && s.lost == []
    && |s.retrieve[7]| <= capacity && |s.pool| + |s.retrieve[7]| == buffers
    && s.returned + Away(s.dis) + 32 * (capacity - |s.retrieve[7]|) < FRAME_LIMIT
  }

  /** Six actions of the reader deal one frame to the lane whose turn it is. */
  lemma DealOne(s: State, buffers: nat, capacity: nat, id: Mbuf) returns (n: State, lane: nat)
    requires Calm(s, buffers, capacity) && !s.quit && id in s.pool
    ensures Reachable(n, buffers, capacity) && lane < LANES && lane == CountUp(s.dis) / INTERVAL
    ensures n == s.(pool := s.pool - multiset{id}, dis := CountUp(s.dis), deals := s.deals + [Deal(lane, lane)],
                    generate := s.generate[lane := [id]])
    ensures n.dis < 32
  {
    hide Reachable;
    var a := Turn(s, 0, Nothing);
    Reach(s, 0, Nothing, buffers, capacity);
    assert a == SetPc(s, 0, Scan(0));
    var b := Turn(a, 0, Nothing);
    Reach(a, 0, Nothing, buffers, capacity);
    assert b == SetPc(s, 0, Found(1));
    var c := Turn(b, 0, Buffer(id));
    Reach(b, 0, Buffer(id), buffers, capacity);
    assert c == SetPc(s, 0, Allocated(1, id)).(pool := s.pool - multiset{id});
    var d := Turn(c, 0, Nothing);
    Reach(c, 0, Nothing, buffers, capacity);
    assert d == SetPc(s, 0, Counted(1, id)).(pool := s.pool - multiset{id}, dis := CountUp(s.dis));
    var e := Turn(d, 0, Nothing);
    Reach(d, 0, Nothing, buffers, capacity);
    lane := Decide(d, 1);
    assert lane < LANES && s.generate[lane] == [] && !Full(s, s.generate[lane]);
    n := Turn(e, 0, Nothing);
    Reach(e, 0, Nothing, buffers, capacity);
    assert n.threads == s.threads;
    assert s.generate[lane] + [id] == [id];
  }

  /** Four actions of a processing thread move the only frame of its lane to the way back. */
  lemma ServeOne(s: State, buffers: nat, capacity: nat, lane: nat, id: Mbuf) returns (n: State)
    requires Reachable(s, buffers, capacity) && Sizes(s) && !s.quit && s.capacity >= 1 && lane < 7
    requires s.threads[lane + 1] == Top && s.generate[lane] == [id] && s.retrieve[lane] == []
    ensures Reachable(n, buffers, capacity)
    ensures n == s.(generate := s.generate[lane := []], retrieve := s.retrieve[lane := [id]])
  {
    hide Reachable;
    var t := lane + 1;
    var a := Turn(s, t, Nothing);
    Reach(s, t, Nothing, buffers, capacity);
    assert a == SetPc(s, t, Idle);
    var b := Turn(a, t, Nothing);
    Reach(a, t, Nothing, buffers, capacity);
    assert s.generate[lane][1..] == [];
    assert b == SetPc(s, t, Serve(id)).(generate := s.generate[lane := []]);
    var c := Turn(b, t, Nothing);
    Reach(b, t, Nothing, buffers, capacity);
    assert c == SetPc(s, t, Back(id)).(generate := s.generate[lane := []]);
    n := Turn(c, t, Nothing);
    Reach(c, t, Nothing, buffers, capacity);
    assert s.retrieve[lane] + [id] == [id];
    assert n.threads == s.threads;
  }

  /** The retrieving thread passes the empty ways back in front of a lane. */
  lemma {:induction false} TryUpTo(s: State, buffers: nat, capacity: nat, k: nat, lane: nat) returns (n: State)
    requires Reachable(s, buffers, capacity) && Sizes(s) && k <= lane < LANES
    requires s.threads[RETRIEVER] == Trying(k) && forall r :: k <= r < lane ==> s.retrieve[r] == []
    ensures Reachable(n, buffers, capacity) && n == SetPc(s, RETRIEVER, Trying(lane))
    decreases lane - k
  {
    hide Reachable;
    if k == lane {
      n := s;
      assert n.threads == SetPc(s, RETRIEVER, Trying(lane)).threads;
    } else {
      Reach(s, RETRIEVER, Nothing, buffers, capacity);
      var m := Turn(s, RETRIEVER, Nothing);
      assert m == SetPc(s, RETRIEVER, Trying(k + 1));
      n := TryUpTo(m, buffers, capacity, k + 1, lane);
      assert n.threads == SetPc(s, RETRIEVER, Trying(lane)).threads;
    }
  }

  /** A round of the retrieving thread returns the only frame of the first lane in use. */
  lemma RetrieveOne(s: State, buffers: nat, capacity: nat, lane: nat, id: Mbuf) returns (n: State)
    requires Reachable(s, buffers, capacity) && Sizes(s) && !s.quit && lane < LANES
    requires s.threads[RETRIEVER] == Top && s.retrieve[lane] == [id]
    requires forall r :: 0 <= r < lane ==> s.retrieve[r] == []
    ensures Reachable(n, buffers, capacity)
    ensures n == s.(retrieve := s.retrieve[lane := []], pool := s.pool + multiset{id}, returned := s.returned + 1,
                    quit := s.returned + 1 >= FRAME_LIMIT)
  {
    hide Reachable;
    var a := Turn(s, RETRIEVER, Nothing);
    Reach(s, RETRIEVER, Nothing, buffers, capacity);
    assert a == SetPc(s, RETRIEVER, Trying(0));
    var b := TryUpTo(a, buffers, capacity, 0, lane);
    assert b == SetPc(s, RETRIEVER, Trying(lane));
    var c := Turn(b, RETRIEVER, Nothing);
    Reach(b, RETRIEVER, Nothing, buffers, capacity);
    assert s.retrieve[lane][1..] == [];
    assert c == SetPc(s, RETRIEVER, Returning(id)).(retrieve := s.retrieve[lane := []], returned := s.returned + 1);
    var d := Turn(c, RETRIEVER, Nothing);
    Reach(c, RETRIEVER, Nothing, buffers, capacity);
    n := Turn(d, RETRIEVER, Nothing);
    Reach(d, RETRIEVER, Nothing, buffers, capacity);
    assert n.threads == s.threads;
  }

  /** Six actions of the reader, whose allocation fails this time, serve the eighth lane: the
      frame joins those that wait on its way back, or is lost when that ring is full. */
  lemma ServeEighth(s: State, buffers: nat, capacity: nat, id: Mbuf) returns (n: State)
    requires Reachable(s, buffers, capacity) && Sizes(s) && !s.quit && s.capacity >= 1
    requires s.threads[0] == Top && s.generate[0] == [] && s.generate[7] == [id]
    ensures Reachable(n, buffers, capacity) && Sizes(n)
    ensures Full(s, s.retrieve[7]) ==> n.lost == s.lost + [id]
    ensures !Full(s, s.retrieve[7]) ==>
      n == s.(generate := s.generate[7 := []], retrieve := s.retrieve[7 := s.retrieve[7] + [id]])
  {
    hide Reachable;
    var a := Turn(s, 0, Nothing);
    Reach(s, 0, Nothing, buffers, capacity);
    assert a == SetPc(s, 0, Scan(0));
    var b := Turn(a, 0, Nothing);
    Reach(a, 0, Nothing, buffers, capacity);
    assert b == SetPc(s, 0, Found(1));
    var c := Turn(b, 0, Nothing);
    Reach(b, 0, Nothing, buffers, capacity);
    assert c == SetPc(s, 0, Idle);
    var d := Turn(c, 0, Nothing);
    Reach(c, 0, Nothing, buffers, capacity);
    assert s.generate[7][1..] == [];
    assert d == SetPc(s, 0, Serve(id)).(generate := s.generate[7 := []]);
    var e := Turn(d, 0, Nothing);
    Reach(d, 0, Nothing, buffers, capacity);
    assert e == SetPc(s, 0, Back(id)).(generate := s.generate[7 := []]);
    n := Turn(e, 0, Nothing);
    Reach(e, 0, Nothing, buffers, capacity);
    assert !Full(s, s.retrieve[7]) ==> n.threads == s.threads;
  }

  /** The count dis_count comes closer to the eighth lane, or is there. */
  lemma AwayStep(dis: nat)
    requires dis < 32
    ensures CountUp(dis) / INTERVAL < 7 ==> Away(CountUp(dis)) == Away(dis) - 1
    ensures CountUp(dis) / INTERVAL == 7 ==> Away(CountUp(dis)) <= Away(dis) + 31
    ensures CountUp(dis) < 32 && CountUp(dis) / INTERVAL <= 7
  {
  }

  /** One frame through one of the first seven lanes. */
  lemma OtherLane(s: State, m: State, buffers: nat, capacity: nat, lane: nat, id: Mbuf) returns (n: State)
    requires Waiting(s, buffers, capacity) && id in s.pool && lane < 7 && lane == CountUp(s.dis) / INTERVAL
    requires Reachable(m, buffers, capacity)
    requires m == s.(pool := s.pool - multiset{id}, dis := CountUp(s.dis), deals := m.deals,
                     generate := s.generate[lane := [id]])
    ensures Waiting(n, buffers, capacity) && n.retrieve == s.retrieve && n.dis == CountUp(s.dis)
  {
    hide Reachable, Turn, Away, CountUp;
    AwayStep(s.dis);
    var o := ServeOne(m, buffers, capacity, lane, id);
    n := RetrieveOne(o, buffers, capacity, lane, id);
    assert n.generate == s.generate && n.retrieve == s.retrieve;
    assert n.pool == s.pool;
  }

  /** One frame through the eighth lane. */
  lemma EighthLane(s: State, m: State, buffers: nat, capacity: nat, id: Mbuf) returns (n: State)
    requires Waiting(s, buffers, capacity) && id in s.pool && CountUp(s.dis) / INTERVAL == 7
    requires Reachable(m, buffers, capacity)
    requires m == s.(pool := s.pool - multiset{id}, dis := CountUp(s.dis), deals := m.deals,
                     generate := s.generate[7 := [id]])
    ensures Reachable(n, buffers, capacity)
    ensures n.lost != []
      || (Waiting(n, buffers, capacity) && |n.retrieve[7]| == |s.retrieve[7]| + 1)
  {
    hide Reachable, Turn, Away, CountUp;
    AwayStep(s.dis);
    n := ServeEighth(m, buffers, capacity, id);
    if n.lost == [] {
      assert n.generate == s.generate;
    }
  }

  lemma {:induction false} WaitForLoss(s: State, buffers: nat, capacity: nat) returns (n: State)
    requires Waiting(s, buffers, capacity) && buffers > capacity
    ensures Reachable(n, buffers, capacity) && n.lost != []
    decreases capacity - |s.retrieve[7]|, Away(s.dis)
  {
    hide Reachable, Turn, Away, CountUp;
    AwayStep(s.dis);
    assert |s.pool| > 0;
    var id :| id in s.pool;
    var m, lane := DealOne(s, buffers, capacity, id);
    if lane < 7 {
      n := OtherLane(s, m, buffers, capacity, lane, id);
      n := WaitForLoss(n, buffers, capacity);
    } else {
      n := EighthLane(s, m, buffers, capacity, id);
      if n.lost == [] {
        n := WaitForLoss(n, buffers, capacity);
      }
    }
  }

  lemma StartWaits(buffers: nat, capacity: nat)
    requires capacity >= 1 && 32 * capacity + 27 < FRAME_LIMIT
    ensures Waiting(Start(buffers, capacity), buffers, capacity)
  {
    var s := Start(buffers, capacity);
    assert After(s, []) == s;
    assert |multiset(AllMbufs(buffers))| == buffers;
  }

  /** For every pool and every ring size, as far as the limit on the number of frames leaves
      room for the schedule: some schedule loses a buffer if and only if there are more buffers
      than a ring has entries, and the rings have any. */
  lemma LossIff(buffers: nat, capacity: nat)
    requires buffers > capacity ==> 32 * capacity + 27 < FRAME_LIMIT
    ensures (exists events: seq<Event<Mbuf>> :: After(Start(buffers, capacity), events).lost != [])
      <==> buffers > capacity >= 1
  {
    hide After, Start, Stuck, Waiting;
    if buffers > capacity >= 1 {
      StartWaits(buffers, capacity);
      var n := WaitForLoss(Start(buffers, capacity), buffers, capacity);
      var events :| After(Start(buffers, capacity), events) == n;
      assert After(Start(buffers, capacity), events).lost != [];
    } else {
      forall events: seq<Event<Mbuf>>
        ensures After(Start(buffers, capacity), events).lost == []
      {
        NoLoss(buffers, capacity, events);
      }
    }
  }

  lemma NoLoss(buffers: nat, capacity: nat, events: seq<Event<Mbuf>>)
    requires buffers <= capacity || capacity == 0
    ensures After(Start(buffers, capacity), events).lost == []
  {
    hide After, Start;
    if buffers <= capacity {
      FewBuffersNoLoss(buffers, capacity, events);
    } else {
      NoEntriesNoLoss(buffers, events);
    }
  }

  /** The configured 4095 buffers and 255 entries lose buffers under some schedule. */
  lemma LossReachable()
    ensures exists events :: After(Start(NUM_MBUFS, RING_CAPACITY), events).lost != []
  {
    LossIff(NUM_MBUFS, RING_CAPACITY);
  }
}

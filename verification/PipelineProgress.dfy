/** The pipeline does its work: some schedule returns every frame, and none starves a lane. */
module PipelineProgress {
  import opened Schedules
  import opened DistinctSequences
  import opened Pipeline
  import opened PipelineInvariant
  import opened PipelineSteps
  import opened PipelineTheorems

  // ---------------------------------------------------------------------------
  // A schedule that returns every frame
  // ---------------------------------------------------------------------------

  ghost predicate Reachable(s: State) {
    exists events :: After(Start(), events) == s
  }

  lemma Reach(s: State, t: ThreadId, pick: Pick<Mbuf>)
    requires Reachable(s)
    ensures Inv(s) && Reachable(Turn(s, t, pick))
  {
    hide Turn, Start, Inv;
    var events :| After(Start(), events) == s;
    RunKeeps(events);
    var more := events + [Event(t, pick)];
    assert more[..|events|] == events;
    assert After(Start(), more) == Turn(s, t, pick);
  }

  lemma ReachableKeeps(s: State)
    requires Reachable(s)
    ensures Inv(s)
  {
    hide Start, After, Inv;
    var events :| After(Start(), events) == s;
    RunKeeps(events);
  }

  /** The frames 1, 2, ... in this order. */
  ghost predicate Numbered(log: seq<Frame>) {
    forall i :: 0 <= i < |log| ==> log[i].number == i + 1
  }

  /** All threads are at the top of their loops, and the first n frames have returned. */
  ghost predicate Calm(s: State, n: nat) {
    && Reachable(s) && Sizes(s) && (forall t :: 0 <= t < THREADS ==> s.threads[t].pc == Top)
    && |s.finished| == n && Numbered(s.finished) && n <= FRAME_LIMIT && (s.quit <==> n == FRAME_LIMIT)
  }

  /** Nothing is on its way. */
  ghost predicate AtRest(s: State, n: nat) {
    && Calm(s, n) && s.read == n
    && forall r :: 0 <= r < RINGS ==> s.rings[r] == []
  }

  /** Frame n + 1 is on ring r, and no other is on its way. */
  ghost predicate OnItsWay(s: State, n: nat, r: nat, id: Mbuf) {
    && Calm(s, n) && n < FRAME_LIMIT && r < RINGS && s.read == n + 1
    && s.rings[r] == [id] && s.memory[id].number == n + 1
    && forall q :: 0 <= q < RINGS && q != r ==> s.rings[q] == []
  }

  /** At rest the pool holds every buffer. */
  lemma PoolFull(s: State, n: nat, id: Mbuf)
    requires AtRest(s, n) && Inv(s)
    ensures id in s.pool
  {
    assert RealPlace(s.place[id]);
    forall r | 0 <= r < RINGS
      ensures s.place[id] != InRing(r)
    {
      assert RingOk(s.rings[r], r, s.place) && id !in s.rings[r];
    }
    forall t | 0 <= t < THREADS
      ensures s.place[id] != InHand(t)
    {
      EmptyHand(s.threads[t], t, s.place, id);
    }
  }

  lemma ReadOne(s: State, n: nat, id: Mbuf) returns (m: State)
    requires AtRest(s, n) && n < FRAME_LIMIT
    ensures OnItsWay(m, n, 0, id)
  {
    hide Reachable, Inv;
    ReachableKeeps(s);
    PoolFull(s, n, id);
    var a := Turn(s, 0, Nothing);
    Reach(s, 0, Nothing);
    assert a == SetPc(s, 0, Ready);
    var b := Turn(a, 0, Buffer(id));
    Reach(a, 0, Buffer(id));
    assert b.threads[0].pc == Loaded(id) && b.rings == s.rings;
    var c := Turn(b, 0, Nothing);
    Reach(b, 0, Nothing);
    m := Turn(c, 0, Nothing);
    Reach(c, 0, Nothing);
    assert s.rings[0] + [id] == [id];
  }

  /** Four turns of a worker move the frame to one of its output rings. */
  lemma WorkOne(s: State, n: nat, r: nat, id: Mbuf) returns (m: State, to: nat)
    requires OnItsWay(s, n, r, id) && r < 7
    ensures OnItsWay(m, n, to, id)
    ensures if r <= 2 then to == 2 * r + 1 || to == 2 * r + 2 else to == r + 4
  {
    hide Reachable, Inv;
    var t := r + 1;
    var a := Turn(s, t, Nothing);
    Reach(s, t, Nothing);
    assert a == SetPc(s, t, Ready);
    var b := Turn(a, t, Nothing);
    Reach(a, t, Nothing);
    assert b == Take(a, t, r);
    var c := Turn(b, t, Nothing);
    Reach(b, t, Nothing);
    m := Turn(c, t, Nothing);
    Reach(c, t, Nothing);
    OutputExists(c, t);
    to := Output(t, c.threads[t].dis);
    assert c.rings[to] + [id] == [id];
  }

  lemma OutputExists(s: State, t: nat)
    requires Inv(s) && 1 <= t < CSD && s.threads[t].pc.Worked?
    ensures Output(t, s.threads[t].dis) < RINGS
  {
    OutputInTurn(s.threads[t], t, s.got[Input(t)], s.sent, s.memory);
  }

  /** The CSD thread passes the empty rings in front of a lane. */
  lemma {:induction false} TryUpTo(s: State, k: nat, l: nat) returns (m: State)
    requires Reachable(s) && Sizes(s) && k <= l < 4
    requires s.threads[CSD].pc == Trying(k) && forall q :: 7 + k <= q < 7 + l ==> s.rings[q] == []
    ensures Reachable(m) && m == SetPc(s, CSD, Trying(l))
    decreases l - k
  {
    hide Reachable, Inv;
    if k == l {
      m := s;
      assert m.threads == SetPc(s, CSD, Trying(l)).threads;
    } else {
      Reach(s, CSD, Nothing);
      var a := Turn(s, CSD, Nothing);
      assert a == SetPc(s, CSD, Trying(k + 1));
      m := TryUpTo(a, k + 1, l);
      assert m.threads == SetPc(s, CSD, Trying(l)).threads;
    }
  }

  /** The CSD thread returns the frame, from whichever of its four rings. */
  lemma ShiftOne(s: State, n: nat, l: nat, id: Mbuf) returns (m: State)
    requires OnItsWay(s, n, 7 + l, id) && l < 4
    ensures AtRest(m, n + 1)
  {
    hide Reachable, Inv;
    FinishedAreCounted(s);
    var a := Turn(s, CSD, Nothing);
    Reach(s, CSD, Nothing);
    assert a == SetPc(s, CSD, Trying(0));
    var b := TryUpTo(a, 0, l);
    assert b == SetPc(s, CSD, Trying(l));
    var c := Turn(b, CSD, Nothing);
    Reach(b, CSD, Nothing);
    assert c == Take(b, CSD, 7 + l);
    var d := Turn(c, CSD, Nothing);
    Reach(c, CSD, Nothing);
    var e := Turn(d, CSD, Nothing);
    Reach(d, CSD, Nothing);
    m := Turn(e, CSD, Nothing);
    Reach(e, CSD, Nothing);
    assert m.finished == s.finished + [d.memory[id]];
    assert m.csdCount == n + 1;
  }

  lemma FinishedAreCounted(s: State)
    requires Reachable(s) && Sizes(s) && s.threads[CSD].pc == Top
    ensures s.csdCount == |s.finished|
  {
    hide Reachable, Places, Queues, Workers, CsdOk;
    ReachableKeeps(s);
  }

  /** One frame through the whole pipeline. */
  lemma OneFrame(s: State, n: nat) returns (m: State)
    requires AtRest(s, n) && n < FRAME_LIMIT
    ensures AtRest(m, n + 1)
  {
    hide AtRest, OnItsWay;
    var r: nat := 0;
    m := ReadOne(s, n, 0);
    m, r := WorkOne(m, n, r, 0);
    m, r := WorkOne(m, n, r, 0);
    m, r := WorkOne(m, n, r, 0);
    m := ShiftOne(m, n, r - 7, 0);
  }

  lemma {:induction false} RestAfter(n: nat) returns (s: State)
    requires n <= FRAME_LIMIT
    ensures AtRest(s, n)
  {
    if n == 0 {
      s := Start();
      assert After(Start(), []) == s;
    } else {
      hide AtRest;
      s := RestAfter(n - 1);
      s := OneFrame(s, n - 1);
    }
  }

  /** For every n up to the limit some schedule returns exactly the frames 1 to n, each with
      all work done, and quit is set exactly if that is the limit. */
  lemma FramesReturn(n: nat)
    requires n <= FRAME_LIMIT
    ensures exists events :: var s := After(Start(), events);
      && |s.finished| == n && (s.quit <==> n == FRAME_LIMIT)
      && forall i :: 0 <= i < n ==> s.finished[i] == Frame(i + 1, ALL_WORK)
  {
    hide Start, After, NextOnLane;
    var s := RestAfter(n);
    ReachableKeeps(s);
    var events :| After(Start(), events) == s;
    assert forall i :: 0 <= i < n ==> s.finished[i] == Frame(i + 1, ALL_WORK);
  }

  /** Turns of the threads k, k + 1, ... in a state where all that is left is to notice quit. */
  lemma {:induction false} ExitFrom(s: State, k: nat) returns (m: State)
    requires Reachable(s) && Sizes(s) && s.quit && k <= THREADS
    requires forall t :: 0 <= t < THREADS ==> s.threads[t].pc == if t < k then Exited else Top
    ensures Reachable(m) && Sizes(m) && m.finished == s.finished
    ensures forall t :: 0 <= t < THREADS ==> m.threads[t].pc == Exited
    decreases THREADS - k
  {
    hide Reachable, Inv;
    if k == THREADS {
      m := s;
    } else {
      Reach(s, k, Nothing);
      var a := Turn(s, k, Nothing);
      assert a == SetPc(s, k, Exited);
      m := ExitFrom(a, k + 1);
    }
  }

  /** A state in which all threads have returned, after all frames, is reached. */
  lemma AllThreadsReturn()
    ensures exists events :: var s := After(Start(), events);
      && |s.finished| == FRAME_LIMIT
      && forall t :: 0 <= t < THREADS ==> s.threads[t].pc == Exited
  {
    hide Start, After;
    var s := RestAfter(FRAME_LIMIT);
    var m := ExitFrom(s, 0);
    var events :| After(Start(), events) == m;
    assert |After(Start(), events).finished| == FRAME_LIMIT;
  }

  // ---------------------------------------------------------------------------
  // No lane starves
  // ---------------------------------------------------------------------------

  lemma RingFlow(s: State, r: nat)
    requires Inv(s) && r < RINGS
    ensures s.got[r] <= s.sent[r] <= s.got[r] + NUM_MBUFS
  {
    assert RingOk(s.rings[r], r, s.place) && Queue(s.rings[r], r, s.got[r], s.sent[r], s.memory);
    AllMbufsCount();
    DistinctBound(s.rings[r], AllMbufs());
  }

  lemma SplitterFlow(s: State, t: nat)
    requires Inv(s) && 1 <= t <= 3
    ensures s.got[t - 1] <= 2 * s.sent[2 * t - 1] + 2 && 2 * s.sent[2 * t - 1] <= s.got[t - 1] + 1
    ensures s.got[t - 1] <= 2 * s.sent[2 * t] + 2 && 2 * s.sent[2 * t] <= s.got[t - 1]
  {
    assert WorkerOk(s.threads[t], t, s.got[Input(t)], s.sent, s.memory);
  }

  lemma ModulatorFlow(s: State, t: nat)
    requires Inv(s) && 4 <= t < CSD
    ensures s.sent[t + 3] <= s.got[t - 1] <= s.sent[t + 3] + 1
  {
    assert WorkerOk(s.threads[t], t, s.got[Input(t)], s.sent, s.memory);
  }

  /** How many frames one lane can be ahead of another. */
  const SPREAD: nat := 5121

  /** A lane has received a quarter of the frames that were dealt, up to what its rings hold. */
  lemma LaneFlow(s: State, l: nat)
    requires Inv(s) && l < 4
    ensures s.got[0] <= 4 * s.got[7 + l] + 20480 && 4 * s.got[7 + l] <= s.got[0] + 3
  {
    hide Inv;
    var b := if l <= 1 then 1 else 2;
    SplitterFlow(s, 1);
    RingFlow(s, b);
    SplitterFlow(s, b + 1);
    RingFlow(s, 3 + l);
    ModulatorFlow(s, 4 + l);
    RingFlow(s, 7 + l);
  }

  lemma LanesStayTogether(s: State, i: nat, j: nat)
    requires Inv(s) && i < 4 && j < 4
    ensures s.got[7 + i] <= s.got[7 + j] + SPREAD
  {
    hide Inv;
    LaneFlow(s, i);
    LaneFlow(s, j);
  }

  lemma {:induction false} LanesTogetherAreAll(log: seq<Frame>)
    ensures |log| == CountLane(log, 0) + CountLane(log, 1) + CountLane(log, 2) + CountLane(log, 3)
  {
    hide Lane;
    if log != [] {
      LanesTogetherAreAll(log[..|log| - 1]);
    }
  }

  /** The frames returned while lane l has returned no more than g. */
  lemma ReturnedSoFar(s: State, l: nat, g: nat)
    requires Inv(s) && l < 4
    ensures CountLane(s.finished, l) <= g ==> |s.finished| <= 4 * g + 3 * SPREAD + 3
    ensures s.got[7 + l] >= g ==> |s.finished| >= 4 * g - 3 * SPREAD - 4
  {
    hide Inv, CountLane;
    LanesTogetherAreAll(s.finished);
    LanesStayTogether(s, 0, l);
    LanesStayTogether(s, 1, l);
    LanesStayTogether(s, 2, l);
    LanesStayTogether(s, 3, l);
    LanesStayTogether(s, l, 0);
    LanesStayTogether(s, l, 1);
    LanesStayTogether(s, l, 2);
    LanesStayTogether(s, l, 3);
    CountsOfLanes(s, 0);
    CountsOfLanes(s, 1);
    CountsOfLanes(s, 2);
    CountsOfLanes(s, 3);
  }

  lemma CountsOfLanes(s: State, l: nat)
    requires Inv(s) && l < 4
    ensures s.got[7 + l] - 1 <= CountLane(s.finished, l) <= s.got[7 + l]
  {
    hide CountLane, Lane;
    assert LaneCount(s.threads[CSD], l, s.got, s.finished, s.memory);
  }

  /** Turns of the CSD thread until it is at the top of its loop, with a frame returned if
      lane l has one to offer. */
  function Steps(pc: Pc, l: nat): (n: nat)
    ensures n <= 12
  {
    match pc
    case Top => 8
    case Trying(lane) => if lane > 3 then 9 else if lane <= l then 7 - lane else 12 - lane
    case Loaded(_) => 3
    case Worked(_) => 2
    case Returning(_) => 1
    case _ => 0
  }

  /** Turns of the CSD thread after which lane l must have returned more than g frames. */
  function Patience(s: State, l: nat, g: nat): (n: int)
    requires Sizes(s)
  {
    8 * (4 * g + 3 * SPREAD + 3 - |s.finished|) + Steps(s.threads[CSD].pc, l)
  }

  /** Lane l has an unreturned frame beyond its first g. */
  ghost predicate Waits(s: State, l: nat, g: nat)
    requires l < 4
  {
    Inv(s) && !s.quit && s.sent[7 + l] > g && s.got[7 + l] >= g && CountLane(s.finished, l) <= g
  }

  lemma WaitingIsFound(s: State, l: nat, g: nat)
    requires l < 4 && Waits(s, l, g)
    ensures Holds(s.threads[CSD].pc) || s.rings[7 + l] != []
    ensures !s.threads[CSD].pc.Exited? && !s.threads[CSD].pc.Ready?
  {
    hide CountLane, Lane;
    assert LaneCount(s.threads[CSD], l, s.got, s.finished, s.memory);
    assert Queue(s.rings[7 + l], 7 + l, s.got[7 + l], s.sent[7 + l], s.memory);
  }

  lemma OthersLeaveCsd(s: State, t: ThreadId, pick: Pick<Mbuf>)
    requires Sizes(s) && t != CSD
    ensures Turn(s, t, pick).threads[CSD] == s.threads[CSD] && Turn(s, t, pick).finished == s.finished
  {
  }

  /** A turn of the CSD thread while there is something to find. */
  lemma CsdAdvances(s: State, l: nat)
    requires Sizes(s) && l < 4 && !s.quit && !s.threads[CSD].pc.Exited? && !s.threads[CSD].pc.Ready?
    requires Holds(s.threads[CSD].pc) || s.rings[7 + l] != []
    ensures var m := CsdTurn(s);
      8 * |s.finished| + Steps(m.threads[CSD].pc, l) + 1 <= 8 * |m.finished| + Steps(s.threads[CSD].pc, l)
  {
  }

  lemma PatienceDrops(s: State, t: ThreadId, pick: Pick<Mbuf>, l: nat, g: nat)
    requires l < 4 && Waits(s, l, g)
    ensures Patience(Turn(s, t, pick), l, g) <= Patience(s, l, g) - if t == CSD then 1 else 0
  {
    hide Places, Queues, Workers, CsdOk, QuitOk, CountLane, Steps, CsdTurn;
    WaitingIsFound(s, l, g);
    if t == CSD {
      CsdAdvances(s, l);
    } else {
      OthersLeaveCsd(s, t, pick);
    }
  }

  lemma TurnGrows(s: State, t: ThreadId, pick: Pick<Mbuf>, l: nat)
    requires Sizes(s) && l < 4
    ensures Turn(s, t, pick).sent[7 + l] >= s.sent[7 + l] && Turn(s, t, pick).got[7 + l] >= s.got[7 + l]
    ensures s.quit ==> Turn(s, t, pick).quit
    ensures CountLane(Turn(s, t, pick).finished, l) >= CountLane(s.finished, l)
  {
    hide Lane, CountLane;
    var log, longer := s.finished, Turn(s, t, pick).finished;
    if longer != log {
      OneReturned(s, t, pick);
      CountGrows(longer, l);
    }
  }

  lemma OneReturned(s: State, t: ThreadId, pick: Pick<Mbuf>)
    requires Sizes(s)
    ensures var longer := Turn(s, t, pick).finished;
      longer == s.finished || (longer != [] && longer[..|longer| - 1] == s.finished)
  {
  }

  lemma CountGrows(log: seq<Frame>, l: nat)
    requires log != []
    ensures CountLane(log, l) >= CountLane(log[..|log| - 1], l)
  {
    hide Lane;
  }

  lemma {:induction false} WaitingEnds(s: State, events: seq<Event<Mbuf>>, l: nat, g: nat)
    requires l < 4 && Sizes(s) && Waits(s, l, g)
    ensures var m := After(s, events);
      && Inv(m)
      && (m.quit || CountLane(m.finished, l) > g
          || (Waits(m, l, g) && Patience(m, l, g) + Turns(events, CSD) <= Patience(s, l, g)))
    decreases |events|
  {
    hide Places, Queues, Workers, CsdOk, QuitOk, Turn, Patience, CountLane;
    if events != [] {
      var last := |events| - 1;
      var e := events[last];
      WaitingEnds(s, events[..last], l, g);
      var m := After(s, events[..last]);
      TurnKeeps(m, e.thread, e.pick);
      TurnGrows(m, e.thread, e.pick, l);
      if Waits(m, l, g) {
        PatienceDrops(m, e.thread, e.pick, l, g);
      }
    }
  }

  lemma {:induction false} FindInLane(log: seq<Frame>, l: nat, g: nat) returns (i: nat)
    requires l < 4 && CountLane(log, l) > g
    ensures i < |log| && Lane(log[i].number) == l && CountLane(log[..i], l) == g
    decreases |log|
  {
    hide Lane;
    var last := |log| - 1;
    if CountLane(log[..last], l) > g {
      i := FindInLane(log[..last], l, g);
      assert log[..last][..i] == log[..i];
    } else {
      i := last;
    }
  }

  const PATIENCE: nat := 8 * (6 * SPREAD + 7) + 13

  /** The CSD thread looks at its rings in a fixed order, so ring 7 + l has to wait while the
      rings before it have frames.  But not for long: since every frame of another lane is
      dealt with one of this lane, the frame at the head of any of the four rings has returned
      after PATIENCE turns of the CSD thread, whatever the other threads do meanwhile, unless
      the program stops before. */
  lemma NoLaneStarves(s: State, events: seq<Event<Mbuf>>, l: nat)
    requires Inv(s) && l < 4 && s.rings[7 + l] != [] && Turns(events, CSD) >= PATIENCE
    ensures var m := After(s, events);
      m.quit || exists i :: 0 <= i < |m.finished|
                            && m.finished[i] == Frame(s.memory[s.rings[7 + l][0]].number, ALL_WORK)
  {
    hide Places, Workers, QuitOk, CountLane, Turns, After, Lane, Steps, Number;
    assert Queue(s.rings[7 + l], 7 + l, s.got[7 + l], s.sent[7 + l], s.memory);
    var g := s.got[7 + l];
    CountsOfLanes(s, l);
    var m := After(s, events);
    if s.quit {
      QuitReaches(s, events, CSD);
    } else {
      WaitingEnds(s, events, l, g);
      ReturnedSoFar(s, l, g);
      ReturnedSoFar(m, l, g);
      if !m.quit {
        var i := FindInLane(m.finished, l, g);
        assert NextOnLane(m.finished[i], m.finished[..i]);
      }
    }
  }

  // ---------------------------------------------------------------------------
  // No worker holds its ring up
  // ---------------------------------------------------------------------------

  /** Turns of a worker until it has passed on another buffer, if its ring has one. */
  function WorkerSteps(pc: Pc): (n: nat)
    ensures n <= 4
  {
    match pc case Top => 4 case Ready => 3 case Loaded(_) => 2 case Worked(_) => 1 case _ => 0
  }

  /** Worker t has not yet passed on the frame behind the first g. */
  ghost predicate WorkerWaits(s: State, t: nat, g: nat)
    requires 1 <= t < CSD
  {
    Inv(s) && !s.quit && s.sent[Input(t)] > g && s.got[Input(t)] >= g && Passed(s.threads[t], s.got[Input(t)]) <= g
  }

  function WorkerPatience(s: State, t: nat, g: nat): (n: int)
    requires Sizes(s) && 1 <= t < CSD
  {
    4 * (g + 1 - Passed(s.threads[t], s.got[Input(t)])) + WorkerSteps(s.threads[t].pc)
  }

  /** What a turn of another thread leaves to worker t. */
  ghost predicate LeftTo(s: State, m: State, t: nat)
    requires Sizes(s) && Sizes(m) && 1 <= t < CSD
  {
    && m.threads[t] == s.threads[t] && m.got[Input(t)] == s.got[Input(t)]
    && m.sent[Input(t)] >= s.sent[Input(t)] && (s.quit ==> m.quit)
  }

  lemma GiveLeaves(s: State, u: nat, r: nat, id: Mbuf, t: nat)
    requires Sizes(s) && u < THREADS && r <= RINGS && 1 <= t < CSD && u != t
    ensures LeftTo(s, Give(s, u, r, id), t)
  {
  }

  lemma TakeLeaves(s: State, u: nat, r: nat, t: nat)
    requires Sizes(s) && u < THREADS && r < RINGS && s.rings[r] != [] && 1 <= t < CSD && u != t && r != Input(t)
    ensures LeftTo(s, Take(s, u, r), t)
  {
  }

  lemma WorkerLeaves(s: State, u: nat, t: nat)
    requires Sizes(s) && 1 <= u < CSD && 1 <= t < CSD && u != t
    ensures LeftTo(s, WorkerTurn(s, u), t)
  {
    hide Give, Take, Output;
    match s.threads[u].pc
    case Ready =>
      if s.rings[Input(u)] != [] {
        TakeLeaves(s, u, Input(u), t);
      }
    case Worked(id) => GiveLeaves(s, u, Output(u, s.threads[u].dis), id, t);
    case _ =>
  }

  lemma ReaderLeaves(s: State, pick: Pick<Mbuf>, t: nat)
    requires Sizes(s) && 1 <= t < CSD
    ensures LeftTo(s, ReaderTurn(s, pick), t)
  {
    hide Give;
    match s.threads[0].pc
    case Worked(id) => GiveLeaves(s, 0, 0, id, t);
    case _ =>
  }

  lemma CsdLeaves(s: State, t: nat)
    requires Sizes(s) && 1 <= t < CSD
    ensures LeftTo(s, CsdTurn(s), t)
  {
    hide Take;
    match s.threads[CSD].pc
    case Trying(l) =>
      if l < 4 && s.rings[7 + l] != [] {
        TakeLeaves(s, CSD, 7 + l, t);
      }
    case _ =>
  }

  /** Only worker t takes from its ring and moves its program counter. */
  lemma OthersLeaveWorker(s: State, u: ThreadId, pick: Pick<Mbuf>, t: nat)
    requires Sizes(s) && 1 <= t < CSD && u != t
    ensures LeftTo(s, Turn(s, u, pick), t)
  {
    hide LeftTo, ReaderTurn, WorkerTurn, CsdTurn;
    if u == 0 {
      ReaderLeaves(s, pick, t);
    } else if u == CSD {
      CsdLeaves(s, t);
    } else {
      WorkerLeaves(s, u, t);
    }
  }

  /** A turn of a worker while its ring has something to take, or its hand to pass on. */
  lemma WorkerAdvances(s: State, t: nat, g: nat)
    requires Sizes(s) && 1 <= t < CSD && !s.quit && WorkerPc(s.threads[t].pc)
    requires Holds(s.threads[t].pc) || s.rings[Input(t)] != []
    requires s.threads[t].pc.Worked? ==> Output(t, s.threads[t].dis) < RINGS
    ensures var m := WorkerTurn(s, t);
      && WorkerPatience(m, t, g) + 1 <= WorkerPatience(s, t, g)
      && m.got[Input(t)] >= s.got[Input(t)] && m.sent[Input(t)] >= s.sent[Input(t)]
  {
  }

  predicate WorkerPc(pc: Pc) {
    pc.Top? || pc.Ready? || pc.Loaded? || pc.Worked?
  }

  lemma WorkerWaitingIsFound(s: State, t: nat, g: nat)
    requires 1 <= t < CSD && WorkerWaits(s, t, g)
    ensures Holds(s.threads[t].pc) || s.rings[Input(t)] != []
    ensures WorkerPc(s.threads[t].pc)
    ensures s.threads[t].pc.Worked? ==> Output(t, s.threads[t].dis) < RINGS
  {
    hide Places, CsdOk, Dealt;
    assert Queue(s.rings[Input(t)], Input(t), s.got[Input(t)], s.sent[Input(t)], s.memory);
    assert WorkerOk(s.threads[t], t, s.got[Input(t)], s.sent, s.memory);
    if s.threads[t].pc.Worked? {
      OutputExists(s, t);
    }
  }

  lemma WorkerPatienceDrops(s: State, u: ThreadId, pick: Pick<Mbuf>, t: nat, g: nat)
    requires 1 <= t < CSD && WorkerWaits(s, t, g)
    ensures WorkerPatience(Turn(s, u, pick), t, g) <= WorkerPatience(s, t, g) - if u == t then 1 else 0
    ensures Turn(s, u, pick).sent[Input(t)] >= s.sent[Input(t)] && Turn(s, u, pick).got[Input(t)] >= s.got[Input(t)]
  {
    hide Places, Queues, Workers, CsdOk, QuitOk, WorkerTurn, WorkerSteps;
    if u == t {
      WorkerWaitingIsFound(s, t, g);
      WorkerAdvances(s, t, g);
    } else {
      hide ReaderTurn, CsdTurn;
      OthersLeaveWorker(s, u, pick, t);
    }
  }

  lemma WorkerNotStopped(s: State, t: nat)
    requires Inv(s) && !s.quit && 1 <= t < CSD
    ensures !s.threads[t].pc.Exited?
  {
  }

  lemma PassedGrows(s: State, u: ThreadId, pick: Pick<Mbuf>, t: nat)
    requires Inv(s) && 1 <= t < CSD
    ensures Passed(Turn(s, u, pick).threads[t], Turn(s, u, pick).got[Input(t)]) >= Passed(s.threads[t], s.got[Input(t)])
    ensures s.quit ==> Turn(s, u, pick).quit
  {
    hide Places, Queues, CsdOk, QuitOk, Dealt, ReaderTurn, CsdTurn;
    if u == t {
      assert WorkerOk(s.threads[t], t, s.got[Input(t)], s.sent, s.memory);
    } else {
      hide WorkerTurn;
      OthersLeaveWorker(s, u, pick, t);
    }
  }

  lemma {:induction false} WorkerWaitingEnds(s: State, events: seq<Event<Mbuf>>, t: nat, g: nat)
    requires 1 <= t < CSD && Sizes(s) && WorkerWaits(s, t, g)
    ensures var m := After(s, events);
      && Inv(m)
      && (m.quit || Passed(m.threads[t], m.got[Input(t)]) > g
          || (WorkerWaits(m, t, g) && WorkerPatience(m, t, g) + Turns(events, t) <= WorkerPatience(s, t, g)))
    decreases |events|
  {
    hide Places, Queues, Workers, CsdOk, QuitOk, Turn, WorkerPatience, Passed;
    if events != [] {
      var last := |events| - 1;
      var e := events[last];
      WorkerWaitingEnds(s, events[..last], t, g);
      var m := After(s, events[..last]);
      TurnKeeps(m, e.thread, e.pick);
      PassedGrows(m, e.thread, e.pick, t);
      if WorkerWaits(m, t, g) {
        WorkerPatienceDrops(m, e.thread, e.pick, t, g);
      }
    }
  }

  /** A frame at the head of a worker's ring is passed on within six turns of that worker,
      whatever the other threads do, unless the program stops before. */
  lemma WorkerPassesOn(s: State, events: seq<Event<Mbuf>>, t: nat)
    requires Inv(s) && 1 <= t < CSD && s.rings[Input(t)] != [] && Turns(events, t) >= 6
    ensures var m := After(s, events);
      m.quit || Passed(m.threads[t], m.got[Input(t)]) > s.got[Input(t)]
  {
    hide Places, CsdOk, QuitOk, Turns, After, Dealt;
    assert Queue(s.rings[Input(t)], Input(t), s.got[Input(t)], s.sent[Input(t)], s.memory);
    if s.quit {
      QuitReaches(s, events, t);
    } else {
      assert WorkerOk(s.threads[t], t, s.got[Input(t)], s.sent, s.memory);
      WorkerWaitingEnds(s, events, t, s.got[Input(t)]);
      var m := After(s, events);
      if WorkerWaits(m, t, s.got[Input(t)]) {
        assert WorkerOk(m.threads[t], t, m.got[Input(t)], m.sent, m.memory);
        WorkerNotStopped(m, t);
      }
    }
  }
}

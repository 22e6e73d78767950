/** Under every fair schedule every frame returns. */
module PipelineLiveness {
  import opened Schedules
  import opened Pipeline
  import opened PipelineInvariant
  import opened PipelineSteps
  import opened PipelineTheorems
  import opened PipelineProgress

  /** A stretch of a schedule in which every thread gets so many turns, in any order.  A
      schedule in which no thread is forgotten is a sequence of such stretches. */
  ghost predicate Fair(events: seq<Event<Mbuf>>) {
    forall t: ThreadId :: Turns(events, t) >= PATIENCE
  }

  function AfterAll(s: State, stretches: seq<seq<Event<Mbuf>>>): (n: State)
    requires Sizes(s)
    ensures Sizes(n)
  {
    if stretches == [] then s
    else After(AfterAll(s, stretches[..|stretches| - 1]), stretches[|stretches| - 1])
  }

  lemma {:induction false} AfterAllConcat(s: State, a: seq<seq<Event<Mbuf>>>, b: seq<seq<Event<Mbuf>>>)
    requires Sizes(s)
    ensures AfterAll(s, a + b) == AfterAll(AfterAll(s, a), b)
    decreases |b|
  {
    hide After;
    if b == [] {
      assert a + b == a;
    } else {
      AfterAllConcat(s, a, b[..|b| - 1]);
      assert (a + b)[..|a + b| - 1] == a + b[..|b| - 1];
    }
  }

  // ---------------------------------------------------------------------------
  // What grows along a run
  // ---------------------------------------------------------------------------

  lemma SentGrows(s: State, t: ThreadId, pick: Pick<Mbuf>, r: nat)
    requires Sizes(s) && r < RINGS
    ensures Turn(s, t, pick).sent[r] >= s.sent[r]
  {
  }

  lemma {:induction false} RunGrows(s: State, events: seq<Event<Mbuf>>, r: nat)
    requires Inv(s) && r < RINGS
    ensures Inv(After(s, events)) && After(s, events).sent[r] >= s.sent[r]
    ensures s.quit ==> After(s, events).quit
    decreases |events|
  {
    hide Places, Queues, Workers, CsdOk, QuitOk, Turn;
    if events != [] {
      var last := |events| - 1;
      var e, m := events[last], After(s, events[..last]);
      RunGrows(s, events[..last], r);
      TurnKeeps(m, e.thread, e.pick);
      SentGrows(m, e.thread, e.pick, r);
      TurnGrows(m, e.thread, e.pick, 0);
    }
  }

  lemma {:induction false} StretchesGrow(s: State, stretches: seq<seq<Event<Mbuf>>>, r: nat)
    requires Inv(s) && r < RINGS
    ensures Inv(AfterAll(s, stretches)) && AfterAll(s, stretches).sent[r] >= s.sent[r]
    ensures s.quit ==> AfterAll(s, stretches).quit
    decreases |stretches|
  {
    hide Places, Queues, Workers, CsdOk, QuitOk, After;
    if stretches != [] {
      var last := |stretches| - 1;
      StretchesGrow(s, stretches[..last], r);
      RunGrows(AfterAll(s, stretches[..last]), stretches[last], r);
    }
  }

  // ---------------------------------------------------------------------------
  // One stretch moves every stage on by a frame
  // ---------------------------------------------------------------------------

  /** How many frames worker t has passed on. */
  function Done(s: State, t: nat): (n: int)
    requires Sizes(s) && 1 <= t < CSD
  {
    Passed(s.threads[t], s.got[Input(t)])
  }

  lemma WorkerMovesOn(s: State, events: seq<Event<Mbuf>>, t: nat)
    requires Inv(s) && 1 <= t < CSD && Fair(events)
    ensures var m := After(s, events);
      m.quit || Done(m, t) >= (if s.sent[Input(t)] > Done(s, t) then Done(s, t) + 1 else Done(s, t))
  {
    hide Places, Queues, CsdOk, QuitOk, Turns, After, Dealt;
    assert WorkerOk(s.threads[t], t, s.got[Input(t)], s.sent, s.memory);
    var g := Done(s, t);
    assert Turns(events, t) >= PATIENCE;
    if s.quit {
      RunGrows(s, events, 0);
    } else if s.sent[Input(t)] > g {
      WorkerWaitingEnds(s, events, t, g);
    } else {
      DoneGrows(s, events, t);
    }
  }

  lemma {:induction false} DoneGrows(s: State, events: seq<Event<Mbuf>>, t: nat)
    requires Inv(s) && 1 <= t < CSD
    ensures Done(After(s, events), t) >= Done(s, t)
    decreases |events|
  {
    hide Places, Queues, Workers, CsdOk, QuitOk, Turn, Passed;
    if events != [] {
      var last := |events| - 1;
      var e := events[last];
      DoneGrows(s, events[..last], t);
      RunGrows(s, events[..last], 0);
      PassedGrows(After(s, events[..last]), e.thread, e.pick, t);
    }
  }

  lemma LaneMovesOn(s: State, events: seq<Event<Mbuf>>, l: nat)
    requires Inv(s) && l < 4 && Fair(events)
    ensures var m, g := After(s, events), CountLane(s.finished, l);
      m.quit || CountLane(m.finished, l) >= (if s.sent[7 + l] > g then g + 1 else g)
  {
    hide Places, Queues, Workers, QuitOk, Turns, After, CountLane, Lane;
    var g, m := CountLane(s.finished, l), After(s, events);
    assert Turns(events, CSD) >= PATIENCE;
    CountsOfLanes(s, l);
    if s.quit {
      RunGrows(s, events, 0);
    } else if s.sent[7 + l] > g {
      WaitingEnds(s, events, l, g);
      ReturnedSoFar(s, l, g);
      ReturnedSoFar(m, l, g);
    } else {
      CountsGrow(s, events, l);
    }
  }

  lemma {:induction false} CountsGrow(s: State, events: seq<Event<Mbuf>>, l: nat)
    requires Sizes(s) && l < 4
    ensures CountLane(After(s, events).finished, l) >= CountLane(s.finished, l)
    decreases |events|
  {
    hide Turn, CountLane;
    if events != [] {
      var last := |events| - 1;
      CountsGrow(s, events[..last], l);
      TurnGrows(After(s, events[..last]), events[last].thread, events[last].pick, l);
    }
  }

  // ---------------------------------------------------------------------------
  // Enough stretches take a frame through a stage
  // ---------------------------------------------------------------------------

  /** Stretches after which the frame at the end of a full ring has passed the stage. */
  const STRETCHES: nat := 2048

  lemma {:induction false} WorkerReaches(s: State, stretches: seq<seq<Event<Mbuf>>>, t: nat, k: nat)
    requires Inv(s) && 1 <= t < CSD && s.sent[Input(t)] > k
    requires forall i :: 0 <= i < |stretches| ==> Fair(stretches[i])
    ensures var m := AfterAll(s, stretches);
      Inv(m) && (m.quit || Done(m, t) > k || Done(m, t) >= Done(s, t) + |stretches|)
    decreases |stretches|
  {
    hide Places, Queues, Workers, CsdOk, QuitOk, After, Fair, Done;
    if stretches != [] {
      var last := |stretches| - 1;
      var m := AfterAll(s, stretches[..last]);
      WorkerReaches(s, stretches[..last], t, k);
      StretchesGrow(s, stretches[..last], Input(t));
      RunGrows(m, stretches[last], Input(t));
      WorkerMovesOn(m, stretches[last], t);
    }
  }

  lemma {:induction false} LaneReaches(s: State, stretches: seq<seq<Event<Mbuf>>>, l: nat, k: nat)
    requires Inv(s) && l < 4 && s.sent[7 + l] > k
    requires forall i :: 0 <= i < |stretches| ==> Fair(stretches[i])
    ensures var m := AfterAll(s, stretches);
      Inv(m) && (m.quit || CountLane(m.finished, l) > k
                 || CountLane(m.finished, l) >= CountLane(s.finished, l) + |stretches|)
    decreases |stretches|
  {
    hide Places, Queues, Workers, CsdOk, QuitOk, After, Fair, CountLane;
    if stretches != [] {
      var last := |stretches| - 1;
      var m := AfterAll(s, stretches[..last]);
      LaneReaches(s, stretches[..last], l, k);
      StretchesGrow(s, stretches[..last], 7 + l);
      RunGrows(m, stretches[last], 7 + l);
      LaneMovesOn(m, stretches[last], l);
    }
  }

  /** The ring and the place on it where a worker puts the k-th frame, from 0, of its input. */
  function NextRing(t: nat, k: nat): (r: nat)
    requires 1 <= t < CSD
    ensures r < RINGS
  {
    if t >= 4 then t + 3 else if k % 2 == 0 then 2 * t - 1 else 2 * t
  }

  function NextPlace(t: nat, k: nat): (j: nat) {
    if t >= 4 then k else k / 2
  }

  /** The k-th frame of a worker's input reaches its output. */
  lemma StagePassed(s: State, stretches: seq<seq<Event<Mbuf>>>, t: nat, k: nat)
    requires Inv(s) && 1 <= t < CSD && s.sent[Input(t)] > k && |stretches| == STRETCHES
    requires forall i :: 0 <= i < |stretches| ==> Fair(stretches[i])
    ensures var m := AfterAll(s, stretches);
      Inv(m) && (m.quit || m.sent[NextRing(t, k)] > NextPlace(t, k))
  {
    hide Places, Queues, CsdOk, QuitOk, AfterAll, Fair;
    var m := AfterAll(s, stretches);
    RingFlow(s, Input(t));
    WorkerReaches(s, stretches, t, k);
    assert WorkerOk(s.threads[t], t, s.got[Input(t)], s.sent, s.memory);
    assert WorkerOk(m.threads[t], t, m.got[Input(t)], m.sent, m.memory);
  }

  /** The frame with number q, put on the first ring, has returned after four times so many
      stretches, whatever the order of the turns in them, unless the program stops before. */
  lemma EveryFrameReturns(s: State, stretches: seq<seq<Event<Mbuf>>>, q: nat)
    requires Inv(s) && 1 <= q <= s.sent[0] && |stretches| == 4 * STRETCHES
    requires forall i :: 0 <= i < |stretches| ==> Fair(stretches[i])
    ensures var m := AfterAll(s, stretches);
      m.quit || exists i :: 0 <= i < |m.finished| && m.finished[i] == Frame(q, ALL_WORK)
  {
    hide Places, Queues, Workers, QuitOk, AfterAll, Fair, CountLane, Lane, Number, LaneCount;
    var a, b := stretches[..STRETCHES], stretches[STRETCHES..2 * STRETCHES];
    var c, d := stretches[2 * STRETCHES..3 * STRETCHES], stretches[3 * STRETCHES..];
    var s1 := AfterAll(s, a);
    StagePassed(s, a, 1, q - 1);
    var t, k := NextRing(1, q - 1) + 1, NextPlace(1, q - 1);
    var s2 := AfterAll(s1, b);
    StretchesGrow(s1, b, 0);
    if !s1.quit {
      StagePassed(s1, b, t, k);
    }
    var u, j := NextRing(t, k) + 1, NextPlace(t, k);
    var s3 := AfterAll(s2, c);
    StretchesGrow(s2, c, 0);
    if !s2.quit {
      StagePassed(s2, c, u, j);
    }
    var l, m := u - 4, AfterAll(s3, d);
    StretchesGrow(s3, d, 0);
    if !m.quit {
      LaneReaches(s3, d, l, j);
      RingFlow(s3, 7 + l);
      CountsOfLanes(s3, l);
      var i := FindInLane(m.finished, l, j);
      assert NextOnLane(m.finished[i], m.finished[..i]);
      PlaceOfFrame(q);
    }
    AfterAllConcat(s, a, b);
    AfterAllConcat(s, a + b, c);
    AfterAllConcat(s, a + b + c, d);
    assert stretches == a + b + c + d;
  }

  /** Following the frame with number q through the three dealing stages. */
  lemma PlaceOfFrame(q: nat)
    requires q >= 1
    ensures var t, k := NextRing(1, q - 1) + 1, NextPlace(1, q - 1);
      Number(NextRing(t, k) + 4, NextPlace(t, k)) == q
  {
  }
}

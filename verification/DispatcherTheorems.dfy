/** What every run of the dispatcher keeps, and where its buffers can get lost. */
module DispatcherTheorems {
  import opened Schedules
  import opened Dispatcher
  import DivMod

  // ---------------------------------------------------------------------------
  // Conservation
  // ---------------------------------------------------------------------------

  function Held(pc: Pc, id: Mbuf): (n: nat) {
    match pc
    case Allocated(_, x) => if x == id then 1 else 0
    case Counted(_, x) => if x == id then 1 else 0
    case Put(_, x) => if x == id then 1 else 0
    case Serve(x) => if x == id then 1 else 0
    case Back(x) => if x == id then 1 else 0
    case Returning(x) => if x == id then 1 else 0
    case _ => 0
  }

  function OnRings(rings: seq<seq<Mbuf>>, id: Mbuf): (n: nat) {
    if rings == [] then 0 else multiset(rings[0])[id] + OnRings(rings[1..], id)
  }

  function InHands(threads: seq<Pc>, id: Mbuf): (n: nat) {
    if threads == [] then 0 else Held(threads[0], id) + InHands(threads[1..], id)
  }

  /** The number of times a buffer occurs anywhere. */
  function Occurrences(s: State, id: Mbuf): (n: nat) {
    s.pool[id] + OnRings(s.generate, id) + OnRings(s.retrieve, id) + InHands(s.threads, id)
    + multiset(s.dropped)[id] + multiset(s.lost)[id]
  }

  lemma {:induction false} RingChanges(rings: seq<seq<Mbuf>>, r: nat, ring: seq<Mbuf>, id: Mbuf)
    requires r < |rings|
    ensures OnRings(rings[r := ring], id) + multiset(rings[r])[id] == OnRings(rings, id) + multiset(ring)[id]
    decreases r
  {
    if r > 0 {
      RingChanges(rings[1..], r - 1, ring, id);
      assert rings[r := ring][1..] == rings[1..][r - 1 := ring];
    } else {
      assert rings[r := ring][1..] == rings[1..];
    }
  }

  lemma {:induction false} HandChanges(threads: seq<Pc>, t: nat, pc: Pc, id: Mbuf)
    requires t < |threads|
    ensures InHands(threads[t := pc], id) + Held(threads[t], id) == InHands(threads, id) + Held(pc, id)
    decreases t
  {
    if t > 0 {
      HandChanges(threads[1..], t - 1, pc, id);
      assert threads[t := pc][1..] == threads[1..][t - 1 := pc];
    } else {
      assert threads[t := pc][1..] == threads[1..];
    }
  }

  lemma HeadAndTail(ring: seq<Mbuf>, id: Mbuf)
    requires ring != []
    ensures multiset(ring)[id] == (if ring[0] == id then 1 else 0) + multiset(ring[1..])[id]
  {
    assert ring == [ring[0]] + ring[1..];
  }

  lemma TakeConserves(s: State, t: nat, lane: nat, otherwise: Pc, id: Mbuf)
    requires Sizes(s) && t < THREADS && lane < LANES
    requires Held(s.threads[t], id) == Held(otherwise, id) == 0
    ensures Occurrences(TakeFrame(s, t, lane, otherwise), id) == Occurrences(s, id)
  {
    hide OnRings, InHands;
    var n := TakeFrame(s, t, lane, otherwise);
    HandChanges(s.threads, t, n.threads[t], id);
    if s.generate[lane] != [] {
      RingChanges(s.generate, lane, s.generate[lane][1..], id);
      HeadAndTail(s.generate[lane], id);
    }
  }

  lemma DeliverConserves(s: State, lane: nat, id: Mbuf)
    requires Sizes(s) && s.threads[0].Put?
    ensures Occurrences(Deliver(s, lane, s.threads[0].mbuf), id) == Occurrences(s, id)
  {
    hide OnRings, InHands;
    HandChanges(s.threads, 0, Top, id);
    if lane < LANES && !Full(s, s.generate[lane]) {
      RingChanges(s.generate, lane, s.generate[lane] + [s.threads[0].mbuf], id);
    }
  }

  lemma GiveBackConserves(s: State, t: nat, lane: nat, id: Mbuf)
    requires Sizes(s) && t < THREADS && lane < LANES && s.threads[t].Back?
    ensures Occurrences(GiveBack(s, t, lane, s.threads[t].mbuf), id) == Occurrences(s, id)
  {
    hide OnRings, InHands;
    HandChanges(s.threads, t, Top, id);
    if !Full(s, s.retrieve[lane]) {
      RingChanges(s.retrieve, lane, s.retrieve[lane] + [s.threads[t].mbuf], id);
    }
  }

  /** A turn that changes one hand, and the pool by the same buffer. */
  lemma HandConserves(s: State, n: State, t: nat, id: Mbuf)
    requires Sizes(s) && Sizes(n) && t < THREADS && n.threads == s.threads[t := n.threads[t]]
    requires n.generate == s.generate && n.retrieve == s.retrieve && n.dropped == s.dropped && n.lost == s.lost
    requires n.pool[id] + Held(n.threads[t], id) == s.pool[id] + Held(s.threads[t], id)
    ensures Occurrences(n, id) == Occurrences(s, id)
  {
    hide OnRings, InHands, Held;
    HandChanges(s.threads, t, n.threads[t], id);
  }

  lemma ReaderConserves(s: State, pick: Pick<Mbuf>, id: Mbuf)
    requires Sizes(s)
    ensures Occurrences(ReaderTurn(s, pick), id) == Occurrences(s, id)
  {
    hide Occurrences, Deliver, GiveBack, TakeFrame, Decide;
    match s.threads[0]
    case Idle => TakeConserves(s, 0, LANES - 1, Top, id);
    case Put(lane, _) => DeliverConserves(s, lane, id);
    case Back(_) => GiveBackConserves(s, 0, LANES - 1, id);
    case Found(n) => FoundConserves(s, n, pick, id);
    case _ => HandConserves(s, ReaderTurn(s, pick), 0, id);
  }

  lemma FoundConserves(s: State, n: int, pick: Pick<Mbuf>, id: Mbuf)
    requires Sizes(s) && n >= 0 && s.threads[0] == Found(n)
    ensures Occurrences(ReaderTurn(s, pick), id) == Occurrences(s, id)
  {
    hide Occurrences;
    HandConserves(s, ReaderTurn(s, pick), 0, id);
  }

  lemma WorkerConserves(s: State, t: nat, id: Mbuf)
    requires Sizes(s) && 1 <= t < RETRIEVER
    ensures Occurrences(WorkerTurn(s, t), id) == Occurrences(s, id)
  {
    hide Occurrences, GiveBack, TakeFrame;
    match s.threads[t]
    case Idle => TakeConserves(s, t, t - 1, Top, id);
    case Back(_) => GiveBackConserves(s, t, t - 1, id);
    case _ => HandConserves(s, WorkerTurn(s, t), t, id);
  }

  lemma RetrieverTakes(s: State, lane: nat, id: Mbuf)
    requires Sizes(s) && s.threads[RETRIEVER] == Trying(lane) && lane < LANES && s.retrieve[lane] != []
    ensures Occurrences(RetrieverTurn(s), id) == Occurrences(s, id)
  {
    hide OnRings, InHands;
    HandChanges(s.threads, RETRIEVER, RetrieverTurn(s).threads[RETRIEVER], id);
    RingChanges(s.retrieve, lane, s.retrieve[lane][1..], id);
    HeadAndTail(s.retrieve[lane], id);
  }

  lemma RetrieverConserves(s: State, id: Mbuf)
    requires Sizes(s)
    ensures Occurrences(RetrieverTurn(s), id) == Occurrences(s, id)
  {
    hide Occurrences;
    var pc := s.threads[RETRIEVER];
    if pc.Trying? && pc.lane < LANES && s.retrieve[pc.lane] != [] {
      RetrieverTakes(s, pc.lane, id);
    } else {
      HandConserves(s, RetrieverTurn(s), RETRIEVER, id);
    }
  }

  lemma TurnConserves(s: State, t: ThreadId, pick: Pick<Mbuf>)
    requires Sizes(s)
    ensures forall id: Mbuf :: Occurrences(Turn(s, t, pick), id) == Occurrences(s, id)
  {
    hide Occurrences, ReaderTurn, WorkerTurn, RetrieverTurn;
    forall id: Mbuf
      ensures Occurrences(Turn(s, t, pick), id) == Occurrences(s, id)
    {
      if t == 0 {
        ReaderConserves(s, pick, id);
      } else if t == RETRIEVER {
        RetrieverConserves(s, id);
      } else {
        WorkerConserves(s, t, id);
      }
    }
  }

  // ---------------------------------------------------------------------------
  // The invariant
  // ---------------------------------------------------------------------------

  /** The ring the reader may use next has room.  Nobody else puts anything into it. */
  predicate ReaderOk(s: State)
    requires Sizes(s)
  {
    match s.threads[0]
    case Scan(k) => k < LANES
    case Found(n) => 1 <= n <= LANES && !Full(s, s.generate[n - 1])
    case Allocated(n, _) => 1 <= n <= LANES && !Full(s, s.generate[n - 1])
    case Counted(n, _) => 1 <= n <= LANES && !Full(s, s.generate[n - 1])
    case Put(lane, _) => lane < LANES && !Full(s, s.generate[lane])
    case _ => true
  }

  /** How many buffers the dispatcher has counted. */
  function Allocations(s: State): (n: nat)
    requires Sizes(s)
  {
    |s.deals| + if s.threads[0].Counted? then 1 else 0
  }

  /** The lane of allocation k, from 1. */
  function Turnwise(k: nat): (lane: nat)
    ensures lane < LANES
  {
    k % (INTERVAL * LANES) / INTERVAL
  }

  ghost predicate DealsOk(deals: seq<Deal>) {
    forall k :: 0 <= k < |deals| ==> deals[k].preferred == Turnwise(k + 1) && deals[k].chosen < LANES
  }

  ghost predicate EachOnce(s: State, buffers: nat) {
    forall id: Mbuf :: Occurrences(s, id) == if id < buffers then 1 else 0
  }

  ghost predicate Inv(s: State, buffers: nat, capacity: nat) {
    && Sizes(s) && s.capacity == capacity
    && EachOnce(s, buffers)
    && ReaderOk(s)
    && s.dis == Allocations(s) % (INTERVAL * LANES)
    && DealsOk(s.deals)
    && s.dropped == []
  }

  /** What other threads do to the dispatcher: its rings only lose entries. */
  lemma OthersKeep(s: State, n: State, buffers: nat, capacity: nat)
    requires Inv(s, buffers, capacity) && Sizes(n) && EachOnce(n, buffers)
    requires n.capacity == s.capacity && n.threads[0] == s.threads[0]
    requires n.dis == s.dis && n.deals == s.deals && n.dropped == s.dropped
    requires forall lane :: 0 <= lane < LANES ==> |n.generate[lane]| <= |s.generate[lane]|
    ensures Inv(n, buffers, capacity)
  {
    hide EachOnce;
  }

  /** No other thread touches the dispatcher's own state or adds to its rings. */
  lemma OthersLeave(s: State, t: ThreadId, pick: Pick<Mbuf>)
    requires Sizes(s) && t != 0
    ensures var n := Turn(s, t, pick);
      && n.capacity == s.capacity && n.threads[0] == s.threads[0]
      && n.dis == s.dis && n.deals == s.deals && n.dropped == s.dropped
      && forall lane :: 0 <= lane < LANES ==> |n.generate[lane]| <= |s.generate[lane]|
  {
  }

  /** dis_count counts modulo 32. */
  lemma CountsModulo(k: nat)
    ensures CountUp(k % (INTERVAL * LANES)) == (k + 1) % (INTERVAL * LANES)
    ensures Preferred(k % (INTERVAL * LANES)) == Turnwise(k)
  {
  }

  /** What a turn of the reader that decides nothing does. */
  lemma ReaderMoves(s: State, n: State, buffers: nat, capacity: nat)
    requires Inv(s, buffers, capacity) && Sizes(n) && EachOnce(n, buffers) && ReaderOk(n)
    requires n.capacity == s.capacity && n.dis == s.dis && n.deals == s.deals && n.dropped == s.dropped
    requires !s.threads[0].Counted? && !n.threads[0].Counted?
    ensures Inv(n, buffers, capacity)
  {
    hide EachOnce;
  }

  lemma ReaderCounts(s: State, n: int, id: Mbuf, buffers: nat, capacity: nat)
    requires Inv(s, buffers, capacity) && n >= 0 && s.threads[0] == Allocated(n, id)
    requires EachOnce(ReaderTurn(s, Nothing), buffers)
    ensures Inv(ReaderTurn(s, Nothing), buffers, capacity)
  {
    hide EachOnce, CountUp;
    CountsModulo(|s.deals|);
  }

  lemma ReaderDecides(s: State, n: int, id: Mbuf, buffers: nat, capacity: nat)
    requires Inv(s, buffers, capacity) && n >= 0 && s.threads[0] == Counted(n, id)
    requires EachOnce(ReaderTurn(s, Nothing), buffers)
    ensures Inv(ReaderTurn(s, Nothing), buffers, capacity)
  {
    hide EachOnce, Preferred, Turnwise;
    CountsModulo(|s.deals| + 1);
    assert Preferred(s.dis) == Turnwise(|s.deals| + 1);
  }

  /** The tests that lead to a choice of ring leave that ring with room. */
  lemma ReaderStaysOk(s: State, pick: Pick<Mbuf>)
    requires Sizes(s) && ReaderOk(s) && !s.threads[0].Counted?
    ensures ReaderOk(ReaderTurn(s, pick))
  {
    hide CountUp, Deliver, GiveBack, TakeFrame;
  }

  lemma ReaderKeeps(s: State, pick: Pick<Mbuf>, buffers: nat, capacity: nat)
    requires Inv(s, buffers, capacity) && EachOnce(ReaderTurn(s, pick), buffers)
    ensures Inv(ReaderTurn(s, pick), buffers, capacity)
  {
    hide EachOnce, DealsOk, CountUp, Decide, ReaderOk;
    match s.threads[0]
    case Allocated(n, id) => ReaderCounts(s, n, id, buffers, capacity);
    case Counted(n, id) => ReaderDecides(s, n, id, buffers, capacity);
    case _ =>
      ReaderStaysOk(s, pick);
      if s.threads[0].Put? {
        PutHasRoom(s);
      }
      ReaderMoves(s, ReaderTurn(s, pick), buffers, capacity);
  }

  lemma PutHasRoom(s: State)
    requires Sizes(s) && ReaderOk(s) && s.threads[0].Put?
    ensures s.threads[0].lane < LANES && !Full(s, s.generate[s.threads[0].lane])
  {
  }

  lemma TurnKeeps(s: State, t: ThreadId, pick: Pick<Mbuf>, buffers: nat, capacity: nat)
    requires Inv(s, buffers, capacity)
    ensures Inv(Turn(s, t, pick), buffers, capacity)
  {
    hide Occurrences, ReaderTurn, WorkerTurn, RetrieverTurn, ReaderOk, DealsOk;
    TurnConserves(s, t, pick);
    assert EachOnce(Turn(s, t, pick), buffers);
    if t == 0 {
      ReaderKeeps(s, pick, buffers, capacity);
    } else {
      OthersLeave(s, t, pick);
      OthersKeep(s, Turn(s, t, pick), buffers, capacity);
    }
  }

  lemma StartOk(buffers: nat, capacity: nat)
    ensures Inv(Start(buffers, capacity), buffers, capacity)
  {
    var s := Start(buffers, capacity);
    forall id: Mbuf
      ensures Occurrences(s, id) == if id < buffers then 1 else 0
    {
      NothingOnRings(s.generate, id);
      NothingOnRings(s.retrieve, id);
      NothingInHands(s.threads, id);
      OnceInPool(AllMbufs(buffers), id);
    }
  }

  lemma {:induction false} NothingOnRings(rings: seq<seq<Mbuf>>, id: Mbuf)
    requires forall r :: 0 <= r < |rings| ==> rings[r] == []
    ensures OnRings(rings, id) == 0
  {
    if rings != [] {
      NothingOnRings(rings[1..], id);
    }
  }

  lemma {:induction false} NothingInHands(threads: seq<Pc>, id: Mbuf)
    requires forall t :: 0 <= t < |threads| ==> threads[t] == Top
    ensures InHands(threads, id) == 0
  {
    if threads != [] {
      NothingInHands(threads[1..], id);
    }
  }

  lemma OnceInPool(all: seq<Mbuf>, id: Mbuf)
    requires forall i :: 0 <= i < |all| ==> all[i] == i
    ensures multiset(all)[id] == if id < |all| then 1 else 0
  {
    if id < |all| {
      assert all == all[..id] + [id] + all[id + 1..];
      assert id !in all[..id] && id !in all[id + 1..];
    } else {
      assert id !in all;
    }
  }

  /** Every turn of every thread keeps the invariant, for any pool and any rings; so does
      every interleaving from the start. */
  lemma {:induction false} RunKeeps(buffers: nat, capacity: nat, events: seq<Event<Mbuf>>)
    ensures Inv(After(Start(buffers, capacity), events), buffers, capacity)
    decreases |events|
  {
    hide EachOnce, ReaderOk, DealsOk, Turn, Start;
    if events == [] {
      StartOk(buffers, capacity);
    } else {
      var last := |events| - 1;
      var s := After(Start(buffers, capacity), events[..last]);
      RunKeeps(buffers, capacity, events[..last]);
      TurnKeeps(s, events[last].thread, events[last].pick, buffers, capacity);
    }
  }

  // ---------------------------------------------------------------------------
  // Theorems over all runs
  // ---------------------------------------------------------------------------

  /** In every interleaving: dis_count is the number of counted buffers modulo 32. */
  lemma DisCountInRange(buffers: nat, capacity: nat, events: seq<Event<Mbuf>>)
    ensures var s := After(Start(buffers, capacity), events);
      s.dis == Allocations(s) % 32 && 0 <= s.dis < 32
  {
    hide After, Start;
    RunKeeps(buffers, capacity, events);
  }

  /** In every interleaving: the ring that is about to receive a frame has room, although the
      dispatcher looked at it several actions ago, and no frame has ever been dropped there. */
  lemma NoDispatchFails(buffers: nat, capacity: nat, events: seq<Event<Mbuf>>)
    ensures var s := After(Start(buffers, capacity), events);
      && s.dropped == []
      && (s.threads[0].Put? ==> s.threads[0].lane < LANES && |s.generate[s.threads[0].lane]| < capacity)
  {
    hide After, Start;
    RunKeeps(buffers, capacity, events);
  }

  /** In every interleaving each buffer is in exactly one place: the pool, a ring, a hand, or
      among those whose return through a RetriveData ring failed. */
  lemma LostOnlyOnReturn(buffers: nat, capacity: nat, events: seq<Event<Mbuf>>, id: Mbuf)
    requires id < buffers
    ensures var s := After(Start(buffers, capacity), events);
      s.pool[id] + OnRings(s.generate, id) + OnRings(s.retrieve, id) + InHands(s.threads, id)
      + multiset(s.lost)[id] == 1
  {
    hide After, Start, OnRings, InHands;
    RunKeeps(buffers, capacity, events);
    assert Occurrences(After(Start(buffers, capacity), events), id) == 1;
  }

  // ---------------------------------------------------------------------------
  // Fair dealing
  // ---------------------------------------------------------------------------

  function Chosen(deals: seq<Deal>, lane: nat): (n: nat) {
    if deals == [] then 0
    else Chosen(deals[..|deals| - 1], lane) + if deals[|deals| - 1].chosen == lane then 1 else 0
  }

  /** How many of the allocations from+1 .. from+n prefer a lane. */
  function Prefer(from: nat, n: nat, lane: nat): (c: nat) {
    if n == 0 then 0 else Prefer(from, n - 1, lane) + if Turnwise(from + n) == lane then 1 else 0
  }

  lemma FirstRound(k: nat, lane: nat)
    requires k < 32 && lane < LANES
    ensures Turnwise(k) == lane <==> 4 * lane <= k < 4 * lane + 4
  {
    DivMod.Unique(k, 32, 0, k);
    DivMod.Split(k, 4);
  }

  lemma {:induction false} PreferEarly(n: nat, lane: nat)
    requires n < 32 && lane < LANES
    ensures Prefer(0, n, lane)
         == if lane == 0 then (if n < 3 then n else 3)
            else if n < 4 * lane then 0 else if n < 4 * lane + 3 then n + 1 - 4 * lane else 4
    decreases n
  {
    hide Turnwise;
    if n > 0 {
      PreferEarly(n - 1, lane);
      FirstRound(n, lane);
    }
  }

  /** A longer stretch from its first element. */
  lemma {:induction false} PreferFirst(from: nat, n: nat, lane: nat)
    ensures Prefer(from, n + 1, lane) == (if Turnwise(from + 1) == lane then 1 else 0) + Prefer(from + 1, n, lane)
    decreases n
  {
    if n > 0 {
      PreferFirst(from, n - 1, lane);
    }
  }

  /** Each lane is preferred four times in any 32 consecutive allocations. */
  lemma {:induction false} PreferWindow(from: nat, lane: nat)
    requires lane < LANES
    ensures Prefer(from, 32, lane) == 4
    decreases from
  {
    hide Turnwise;
    if from == 0 {
      PreferEarly(31, lane);
      LastOfRound();
    } else {
      PreferWindow(from - 1, lane);
      PreferFirst(from - 1, 32, lane);
      SameTurn(from);
    }
  }

  lemma LastOfRound()
    ensures Turnwise(32) == 0
  {
  }

  lemma SameTurn(k: nat)
    ensures Turnwise(k + 32) == Turnwise(k)
  {
    DivMod.AddMultiple(k, 1, 32);
  }

  lemma {:induction false} ChosenIsPreferred(deals: seq<Deal>, from: nat, n: nat, lane: nat)
    requires DealsOk(deals) && from + n <= |deals|
    requires forall k :: from <= k < from + n ==> deals[k].chosen == deals[k].preferred
    ensures Chosen(deals[from..from + n], lane) == Prefer(from, n, lane)
    decreases n
  {
    hide Turnwise;
    if n > 0 {
      ChosenIsPreferred(deals, from, n - 1, lane);
      assert deals[from..from + n][..n - 1] == deals[from..from + n - 1];
    }
  }

  /** In every interleaving: 32 consecutive frames of which none met a full preferred ring
      give each of the eight rings exactly four. */
  lemma FourEach(buffers: nat, capacity: nat, events: seq<Event<Mbuf>>, from: nat, lane: nat)
    requires lane < LANES && from + 32 <= |After(Start(buffers, capacity), events).deals|
    requires var deals := After(Start(buffers, capacity), events).deals;
      forall k :: from <= k < from + 32 ==> deals[k].chosen == deals[k].preferred
    ensures Chosen(After(Start(buffers, capacity), events).deals[from..from + 32], lane) == 4
  {
    hide After, Start, Chosen, Prefer;
    RunKeeps(buffers, capacity, events);
    ChosenIsPreferred(After(Start(buffers, capacity), events).deals, from, 32, lane);
    PreferWindow(from, lane);
  }
}

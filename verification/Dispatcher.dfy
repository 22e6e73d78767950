/**
 The dispatcher of maindpdk2.c as a state machine: one thread reads frames and deals them
 to eight rings, seven threads (and the reader, when it has nothing better to do) process
 them, and one thread returns them to the pool.
 */
module Dispatcher {
  import opened Schedules

  /** The configured pool and rings; a ring created with 256 entries keeps one of them free.
      The state machine takes any pool and any capacity. */
  const NUM_MBUFS: nat := 4095
  const RING_CAPACITY: nat := 255

  const INTERVAL: nat := 4
  const LANES: nat := 8
  const FRAME_LIMIT: nat := 100000
  /** Threads: 0 ReadData_Loop, 1..7 GenerateData_Loop1..7, 8 Data_Retrive_Loop. */
  const RETRIEVER: nat := 8

  type Mbuf = nat

  /** Where a thread stands, with the buffer in its hand.  Found carries the ring number, 1
      to 8, that FindEmptyRing returned. */
  datatype Pc =
    | Top
    | Scan(ring: nat)
    | Found(n: nat)
    | Idle
    | Allocated(n: nat, mbuf: Mbuf)
    | Counted(n: nat, mbuf: Mbuf)
    | Put(lane: nat, mbuf: Mbuf)
    | Serve(mbuf: Mbuf)
    | Back(mbuf: Mbuf)
    | Trying(lane: nat)
    | Returning(mbuf: Mbuf)
    | Checking
    | Exited

  /** One decision of the dispatcher: the lane whose turn it was and the lane it chose. */
  datatype Deal = Deal(preferred: nat, chosen: nat)

  /** The shared state.  The first field is the number of usable entries of every ring, which
      never changes.  The last three fields are history: the decisions so far, and the
      buffers whose enqueue failed on a GenerateData and on a RetriveData ring. */
  datatype State = State(
    capacity: nat,
    pool: multiset<Mbuf>,
    generate: seq<seq<Mbuf>>,
    retrieve: seq<seq<Mbuf>>,
    threads: seq<Pc>,
    dis: nat,
    quit: bool,
    returned: nat,
    deals: seq<Deal>,
    dropped: seq<Mbuf>,
    lost: seq<Mbuf>)

  predicate Sizes(s: State) {
    |s.generate| == |s.retrieve| == LANES && |s.threads| == THREADS
  }

  predicate Full(s: State, ring: seq<Mbuf>) {
    |ring| >= s.capacity
  }

  /** The lane that dis_count chooses; outside 0..31 it chooses none. */
  function Preferred(dis: nat): (lane: nat) {
    if dis < INTERVAL * LANES then dis / INTERVAL else LANES
  }

  function CountUp(dis: nat): (next: nat) {
    if dis + 1 == INTERVAL * LANES then 0 else dis + 1
  }

  function SetPc(s: State, t: nat, pc: Pc): (n: State)
    requires Sizes(s) && t < THREADS
    ensures Sizes(n)
  {
    s.(threads := s.threads[t := pc])
  }

  /** rte_ring_dequeue from a GenerateData ring. */
  function TakeFrame(s: State, t: nat, lane: nat, otherwise: Pc): (n: State)
    requires Sizes(s) && t < THREADS && lane < LANES
    ensures Sizes(n) && (n.threads[t].Serve? || n.threads[t] == otherwise)
  {
    if s.generate[lane] == [] then SetPc(s, t, otherwise)
    else
      SetPc(s, t, Serve(s.generate[lane][0])).(generate := s.generate[lane := s.generate[lane][1..]])
  }

  /** rte_ring_enqueue to a GenerateData ring, return code ignored. */
  function Deliver(s: State, lane: nat, id: Mbuf): (n: State)
    requires Sizes(s)
    ensures Sizes(n) && n.threads[0] == Top
  {
    var m := SetPc(s, 0, Top);
    if lane < LANES && !Full(s, s.generate[lane]) then
      m.(generate := s.generate[lane := s.generate[lane] + [id]])
    else
      m.(dropped := s.dropped + [id])
  }

  /** rte_ring_enqueue to a RetriveData ring, return code ignored. */
  function GiveBack(s: State, t: nat, lane: nat, id: Mbuf): (n: State)
    requires Sizes(s) && t < THREADS && lane < LANES
    ensures Sizes(n) && n.threads[t] == Top
  {
    var m := SetPc(s, t, Top);
    if !Full(s, s.retrieve[lane]) then
      m.(retrieve := s.retrieve[lane := s.retrieve[lane] + [id]])
    else
      m.(lost := s.lost + [id])
  }

  /** The decision between the preferred ring and the one found before. */
  function Decide(s: State, n: nat): (lane: nat)
    requires Sizes(s)
  {
    var lane := Preferred(s.dis);
    if lane == LANES then LANES
    else if !Full(s, s.generate[lane]) then lane
    else if 1 <= n <= LANES then n - 1
    else LANES
  }

  function ReaderTurn(s: State, pick: Pick<Mbuf>): (m: State)
    requires Sizes(s)
    ensures Sizes(m)
  {
    match s.threads[0]
    case Top => SetPc(s, 0, if s.quit then Exited else Scan(0))
    case Scan(k) =>
      if k < LANES && !Full(s, s.generate[k]) then SetPc(s, 0, Found(k + 1))
      else SetPc(s, 0, if k + 1 < LANES then Scan(k + 1) else Idle)
    case Found(n) =>
      if pick.Buffer? && pick.mbuf in s.pool then
        SetPc(s, 0, Allocated(n, pick.mbuf)).(pool := s.pool - multiset{pick.mbuf})
      else SetPc(s, 0, Idle)
    case Idle => TakeFrame(s, 0, LANES - 1, Top)
    case Allocated(n, id) => SetPc(s, 0, Counted(n, id)).(dis := CountUp(s.dis))
    case Counted(n, id) =>
      var lane := Decide(s, n);
      SetPc(s, 0, Put(lane, id)).(deals := s.deals + [Deal(Preferred(s.dis), lane)])
    case Put(lane, id) => Deliver(s, lane, id)
    case Serve(id) => SetPc(s, 0, Back(id))
    case Back(id) => GiveBack(s, 0, LANES - 1, id)
    case _ => s
  }

  function WorkerTurn(s: State, t: nat): (m: State)
    requires Sizes(s) && 1 <= t < RETRIEVER
    ensures Sizes(m)
  {
    match s.threads[t]
    case Top => SetPc(s, t, if s.quit then Exited else Idle)
    case Idle => TakeFrame(s, t, t - 1, Top)
    case Serve(id) => SetPc(s, t, Back(id))
    case Back(id) => GiveBack(s, t, t - 1, id)
    case _ => s
  }

  function RetrieverTurn(s: State): (m: State)
    requires Sizes(s)
    ensures Sizes(m)
  {
    match s.threads[RETRIEVER]
    case Top => SetPc(s, RETRIEVER, if s.quit then Exited else Trying(0))
    case Trying(lane) =>
      if lane < LANES && s.retrieve[lane] != [] then
        SetPc(s, RETRIEVER, Returning(s.retrieve[lane][0])).(
          retrieve := s.retrieve[lane := s.retrieve[lane][1..]],
          returned := s.returned + 1)
      else SetPc(s, RETRIEVER, if lane + 1 < LANES then Trying(lane + 1) else Top)
    case Returning(id) => SetPc(s, RETRIEVER, Checking).(pool := s.pool + multiset{id})
    case Checking => SetPc(s, RETRIEVER, Top).(quit := s.quit || s.returned >= FRAME_LIMIT)
    case _ => s
  }

  function Turn(s: State, t: nat, pick: Pick<Mbuf>): (m: State)
    requires Sizes(s) && t < THREADS
    ensures Sizes(m)
  {
    if t == 0 then ReaderTurn(s, pick) else if t == RETRIEVER then RetrieverTurn(s) else WorkerTurn(s, t)
  }

  function After(s: State, events: seq<Event<Mbuf>>): (n: State)
    requires Sizes(s)
    ensures Sizes(n)
  {
    if events == [] then s
    else
      var last := |events| - 1;
      Turn(After(s, events[..last]), events[last].thread, events[last].pick)
  }

  function AllMbufs(buffers: nat): (all: seq<Mbuf>)
    ensures |all| == buffers && forall id :: 0 <= id < buffers ==> all[id] == id
  {
    seq(buffers, i => i)
  }

  /** A pool of so many buffers and rings of such a capacity, all empty. */
  function Start(buffers: nat, capacity: nat): (s: State)
    ensures Sizes(s)
  {
    State(capacity, multiset(AllMbufs(buffers)), seq(LANES, _ => []), seq(LANES, _ => []), seq(THREADS, _ => Top),
      0, false, 0, [], [], [])
  }
}

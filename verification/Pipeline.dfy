/**
 The nine threads of maindpdk_test_2.c as a state machine.  One turn of a thread is one
 atomic action: the test of quit, one ring or pool operation, or the processing of the
 buffer in its hand.  A run is any sequence of turns in any order.
 */
module Pipeline {
  import opened Schedules

  const NUM_MBUFS: nat := 2047
  /** A ring created with 2048 entries keeps one of them free. */
  const RING_CAPACITY: nat := 2047
  const FRAME_LIMIT: nat := 100000

  /** Rings: 0 Beforescramble, 1..2 scramble_2_BCC, 3..6 BCC_2_modulation,
      7..10 modulation_2_CSD. */
  const RINGS: nat := 11
  /** Threads: 0 ReadData, 1 GenDataAndScramble, 2..3 BCC_encoder, 4..7 modulate, 8 Data_CSD. */
  const CSD: nat := 8

  predicate IsMbuf(i: int) {
    0 <= i < NUM_MBUFS
  }

  type Mbuf = i: int | 0 <= i < NUM_MBUFS

  datatype Work = Scramble | Encode | Modulate | CyclicShift

  /** What a buffer holds: the number of the read that filled it, and the work done since. */
  datatype Frame = Frame(number: nat, done: seq<Work>)

  /** Where a thread stands, with the buffer in its hand. */
  datatype Pc =
    | Top
    | Ready
    | Trying(lane: nat)
    | Loaded(mbuf: Mbuf)
    | Worked(mbuf: Mbuf)
    | Returning(mbuf: Mbuf)
    | Exited

  datatype Thread = Thread(pc: Pc, dis: nat)

  datatype Place = InPool | InRing(ring: nat) | InHand(thread: nat) | Lost

  /** The shared state.  The last five fields are history that no thread looks at: how many
      frames were read, how many entries each ring received and gave, where each buffer was
      last put, and the frames returned to the pool, in order. */
  datatype State = State(
    pool: set<Mbuf>,
    rings: seq<seq<Mbuf>>,
    threads: seq<Thread>,
    memory: seq<Frame>,
    quit: bool,
    csdCount: nat,
    read: nat,
    sent: seq<nat>,
    got: seq<nat>,
    place: seq<Place>,
    finished: seq<Frame>)

  predicate Sizes(s: State) {
    && |s.rings| == |s.sent| == |s.got| == RINGS
    && |s.threads| == THREADS
    && |s.memory| == |s.place| == NUM_MBUFS
  }

  predicate Holds(pc: Pc) {
    pc.Loaded? || pc.Worked? || pc.Returning?
  }

  // ---------------------------------------------------------------------------
  // The topology
  // ---------------------------------------------------------------------------

  /** The ring a worker thread takes from. */
  function Input(t: nat): (r: nat)
    requires 1 <= t < CSD
    ensures r < RINGS
  {
    t - 1
  }

  function Job(t: nat): (w: Work)
    requires 1 <= t < CSD
  {
    if t == 1 then Scramble else if t <= 3 then Encode else Modulate
  }

  /** The ring a worker thread gives to: the splitters choose by dis_count, and give to no
      ring at all unless it is 1 or 2. */
  function Output(t: nat, dis: nat): (r: nat)
    requires 1 <= t < CSD
    ensures r <= RINGS
  {
    if t >= 4 then t + 3
    else if dis == 1 then 2 * t - 1
    else if dis == 2 then 2 * t
    else RINGS
  }

  /** dis_count after one more buffer: 1, 2, 1, 2, ... */
  function CountUp(dis: nat): (next: nat) {
    if dis + 1 == 3 then 1 else dis + 1
  }

  // ---------------------------------------------------------------------------
  // The atomic actions
  // ---------------------------------------------------------------------------

  function SetPc(s: State, t: nat, pc: Pc): (n: State)
    requires Sizes(s) && t < THREADS
    ensures Sizes(n)
  {
    s.(threads := s.threads[t := s.threads[t].(pc := pc)])
  }

  /** A successful rte_ring_dequeue. */
  function Take(s: State, t: nat, r: nat): (n: State)
    requires Sizes(s) && t < THREADS && r < RINGS && s.rings[r] != []
    ensures Sizes(n)
  {
    var id := s.rings[r][0];
    SetPc(s, t, Loaded(id)).(
      rings := s.rings[r := s.rings[r][1..]],
      got := s.got[r := s.got[r] + 1],
      place := s.place[id := InHand(t)])
  }

  /** rte_ring_enqueue with its return code ignored: into a full ring, or into none, the
      buffer is lost. */
  function Give(s: State, t: nat, r: nat, id: Mbuf): (n: State)
    requires Sizes(s) && t < THREADS && r <= RINGS
    ensures Sizes(n)
  {
    var m := SetPc(s, t, Top);
    if r < RINGS && |s.rings[r]| < RING_CAPACITY then
      m.(rings := s.rings[r := s.rings[r] + [id]],
         sent := s.sent[r := s.sent[r] + 1],
         place := s.place[id := InRing(r)])
    else
      m.(place := s.place[id := Lost])
  }

  function Allocate(s: State, t: nat, id: Mbuf): (n: State)
    requires Sizes(s) && t < THREADS
    ensures Sizes(n)
  {
    SetPc(s, t, Loaded(id)).(pool := s.pool - {id}, place := s.place[id := InHand(t)])
  }

  function Release(s: State, t: nat, id: Mbuf): (n: State)
    requires Sizes(s) && t < THREADS
    ensures Sizes(n)
  {
    SetPc(s, t, Top).(pool := s.pool + {id}, place := s.place[id := InPool], finished := s.finished + [s.memory[id]])
  }

  /** while(!quit). */
  function TestQuit(s: State, t: nat): (n: State)
    requires Sizes(s) && t < THREADS
    ensures Sizes(n)
  {
    SetPc(s, t, if s.quit then Exited else if t == CSD then Trying(0) else Ready)
  }

  function ReaderTurn(s: State, pick: Pick<Mbuf>): (n: State)
    requires Sizes(s)
    ensures Sizes(n)
  {
    match s.threads[0].pc
    case Top => TestQuit(s, 0)
    case Ready =>
      if pick.Buffer? && pick.mbuf in s.pool then Allocate(s, 0, pick.mbuf) else SetPc(s, 0, Top)
    case Loaded(id) =>
      SetPc(s, 0, Worked(id)).(read := s.read + 1, memory := s.memory[id := Frame(s.read + 1, [])])
    case Worked(id) => Give(s, 0, 0, id)
    case _ => s
  }

  function WorkerTurn(s: State, t: nat): (n: State)
    requires Sizes(s) && 1 <= t < CSD
    ensures Sizes(n)
  {
    var th := s.threads[t];
    match th.pc
    case Top => TestQuit(s, t)
    case Ready => if s.rings[Input(t)] != [] then Take(s, t, Input(t)) else SetPc(s, t, Top)
    case Loaded(id) =>
      var f := s.memory[id];
      s.(threads := s.threads[t := Thread(Worked(id), CountUp(th.dis))],
         memory := s.memory[id := Frame(f.number, f.done + [Job(t)])])
    case Worked(id) => Give(s, t, Output(t, th.dis), id)
    case _ => s
  }

  function CsdTurn(s: State): (n: State)
    requires Sizes(s)
    ensures Sizes(n)
  {
    match s.threads[CSD].pc
    case Top => TestQuit(s, CSD)
    case Trying(lane) =>
      if lane < 4 && s.rings[7 + lane] != [] then Take(s, CSD, 7 + lane)
      else SetPc(s, CSD, if lane < 3 then Trying(lane + 1) else Top)
    case Loaded(id) =>
      var f := s.memory[id];
      SetPc(s, CSD, Worked(id)).(
        csdCount := s.csdCount + 1,
        memory := s.memory[id := Frame(f.number, f.done + [CyclicShift])])
    case Worked(id) => SetPc(s, CSD, Returning(id)).(quit := s.quit || s.csdCount >= FRAME_LIMIT)
    case Returning(id) => Release(s, CSD, id)
    case _ => s
  }

  /** One turn of thread t. */
  function Turn(s: State, t: nat, pick: Pick<Mbuf>): (n: State)
    requires Sizes(s) && t < THREADS
    ensures Sizes(n)
  {
    if t == 0 then ReaderTurn(s, pick) else if t == CSD then CsdTurn(s) else WorkerTurn(s, t)
  }

  /** The state after a run. */
  function After(s: State, events: seq<Event<Mbuf>>): (n: State)
    requires Sizes(s)
    ensures Sizes(n)
  {
    if events == [] then s
    else
      var last := |events| - 1;
      Turn(After(s, events[..last]), events[last].thread, events[last].pick)
  }

  /** All buffers in the pool, all rings empty, all threads before their first test. */
  function Start(): (s: State)
    ensures Sizes(s)
  {
    State(
      set id: Mbuf | 0 <= id < NUM_MBUFS && IsMbuf(id),
      seq(RINGS, _ => []),
      seq(THREADS, _ => Thread(Top, 0)),
      seq(NUM_MBUFS, _ => Frame(0, [])),
      false, 0, 0,
      seq(RINGS, _ => 0),
      seq(RINGS, _ => 0),
      seq(NUM_MBUFS, _ => InPool),
      [])
  }
}

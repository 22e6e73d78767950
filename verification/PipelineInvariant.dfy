/** What every turn of every thread keeps. */
module PipelineInvariant {
  import opened Schedules
  import opened DistinctSequences
  import opened Pipeline

  // ---------------------------------------------------------------------------
  // Every buffer is in one place
  // ---------------------------------------------------------------------------

  ghost predicate PoolOk(pool: set<Mbuf>, place: seq<Place>)
    requires |place| == NUM_MBUFS
  {
    forall id: Mbuf :: id in pool <==> place[id] == InPool
  }

  ghost predicate RingOk(ring: seq<Mbuf>, r: nat, place: seq<Place>)
    requires |place| == NUM_MBUFS
  {
    Distinct(ring) && forall id: Mbuf :: id in ring <==> place[id] == InRing(r)
  }

  predicate InHandOf(th: Thread, id: Mbuf) {
    Holds(th.pc) && th.pc.mbuf == id
  }

  ghost predicate HandOk(th: Thread, t: nat, place: seq<Place>)
    requires |place| == NUM_MBUFS
  {
    forall id: Mbuf :: InHandOf(th, id) <==> place[id] == InHand(t)
  }

  predicate RealPlace(p: Place) {
    match p
    case InPool => true
    case InRing(r) => r < RINGS
    case InHand(t) => t < THREADS
    case Lost => false
  }

  /** The history of places agrees with the pool, the rings and the hands, and no buffer is
      lost. */
  ghost predicate Places(s: State)
    requires Sizes(s)
  {
    && PoolOk(s.pool, s.place)
    && (forall r :: 0 <= r < RINGS ==> RingOk(s.rings[r], r, s.place))
    && (forall t :: 0 <= t < THREADS ==> HandOk(s.threads[t], t, s.place))
    && (forall id: Mbuf :: RealPlace(s.place[id]))
  }

  // ---------------------------------------------------------------------------
  // Which frames are where
  // ---------------------------------------------------------------------------

  function First(r: nat): (n: nat) {
    match r
    case 0 => 1 case 1 => 1 case 2 => 2
    case 3 => 1 case 4 => 3 case 5 => 2 case 6 => 4
    case 7 => 1 case 8 => 3 case 9 => 2 case _ => 4
  }

  /** The number of the k-th frame, from 0, that ring r ever receives. */
  function Number(r: nat, k: nat): (n: nat) {
    First(r) + (if r == 0 then k else if r <= 2 then 2 * k else 4 * k)
  }

  /** The work done on every frame that reaches ring r. */
  function History(r: nat): (h: seq<Work>) {
    if r == 0 then [] else if r <= 2 then [Scramble] else if r <= 6 then [Scramble, Encode]
    else [Scramble, Encode, Modulate]
  }

  const ALL_WORK := [Scramble, Encode, Modulate, CyclicShift]

  ghost predicate Queue(ring: seq<Mbuf>, r: nat, got: nat, sent: nat, memory: seq<Frame>)
    requires |memory| == NUM_MBUFS
  {
    && sent == got + |ring|
    && forall i :: 0 <= i < |ring| ==> memory[ring[i]] == Frame(Number(r, got + i), History(r))
  }

  /** Each ring holds its frames in the order of their numbers. */
  ghost predicate Queues(s: State)
    requires Sizes(s)
  {
    forall r :: 0 <= r < RINGS ==> Queue(s.rings[r], r, s.got[r], s.sent[r], s.memory)
  }

  ghost predicate ReaderOk(th: Thread, read: nat, sent: nat, memory: seq<Frame>)
    requires |memory| == NUM_MBUFS
  {
    match th.pc
    case Worked(id) => read == sent + 1 && memory[id] == Frame(read, [])
    case Returning(_) => false
    case Trying(_) => false
    case _ => read == sent
  }

  /** dis_count of a splitter that has counted n buffers. */
  function DisAfter(n: nat): (dis: nat) {
    if n == 0 then 0 else if n % 2 == 1 then 1 else 2
  }

  /** How many of the buffers it took a worker has passed on. */
  function Passed(th: Thread, got: nat): (n: int) {
    if Holds(th.pc) then got - 1 else got
  }

  /** A worker holds the latest frame of its input ring, and a splitter has dealt the frames
      before it alternately to its two output rings. */
  ghost predicate WorkerOk(th: Thread, t: nat, got: nat, sent: seq<nat>, memory: seq<Frame>)
    requires 1 <= t < CSD && |sent| == RINGS && |memory| == NUM_MBUFS
  {
    && !th.pc.Trying? && !th.pc.Returning?
    && (Holds(th.pc) ==> got >= 1)
    && (th.pc.Loaded? ==> memory[th.pc.mbuf] == Frame(Number(Input(t), got - 1), History(Input(t))))
    && (th.pc.Worked? ==> memory[th.pc.mbuf] == Frame(Number(Input(t), got - 1), History(Input(t)) + [Job(t)]))
    && Dealt(th, t, got, sent)
  }

  ghost predicate Dealt(th: Thread, t: nat, got: nat, sent: seq<nat>)
    requires 1 <= t < CSD && |sent| == RINGS
    requires Holds(th.pc) ==> got >= 1
  {
    var passed := Passed(th, got);
    if t <= 3 then
      && th.dis == DisAfter(if th.pc.Loaded? then got - 1 else got)
      && sent[2 * t - 1] == (passed + 1) / 2
      && sent[2 * t] == passed / 2
    else
      sent[t + 3] == passed
  }

  ghost predicate Workers(s: State)
    requires Sizes(s)
  {
    && ReaderOk(s.threads[0], s.read, s.sent[0], s.memory)
    && forall t :: 1 <= t < CSD ==> WorkerOk(s.threads[t], t, s.got[Input(t)], s.sent, s.memory)
  }

  // ---------------------------------------------------------------------------
  // The frames that leave
  // ---------------------------------------------------------------------------

  /** The lane, 0 to 3, that the splitters choose for the q-th frame read. */
  function Lane(q: nat): (l: nat)
    ensures l < 4
  {
    match q % 4 case 1 => 0 case 3 => 1 case 2 => 2 case _ => 3
  }

  function CountLane(log: seq<Frame>, l: nat): (n: nat) {
    if log == [] then 0
    else CountLane(log[..|log| - 1], l) + if Lane(log[|log| - 1].number) == l then 1 else 0
  }

  /** The frame that has to leave next on its lane. */
  ghost predicate NextOnLane(f: Frame, log: seq<Frame>) {
    f.number == Number(7 + Lane(f.number), CountLane(log, Lane(f.number)))
  }

  /** Every frame that has left had all the work done on it, once and in order, and left
      its lane in turn. */
  ghost predicate LogOk(log: seq<Frame>) {
    forall i :: 0 <= i < |log| ==> log[i].done == ALL_WORK && NextOnLane(log[i], log[..i])
  }

  /** What the CSD thread took from lane l has left, except a buffer in its hand. */
  ghost predicate LaneCount(th: Thread, l: nat, got: seq<nat>, log: seq<Frame>, memory: seq<Frame>)
    requires l < 4 && |got| == RINGS && |memory| == NUM_MBUFS
  {
    got[7 + l] == CountLane(log, l) + if Holds(th.pc) && Lane(memory[th.pc.mbuf].number) == l then 1 else 0
  }

  ghost predicate CsdOk(s: State)
    requires Sizes(s)
  {
    var th := s.threads[CSD];
    && !th.pc.Ready?
    && (forall l :: 0 <= l < 4 ==> LaneCount(th, l, s.got, s.finished, s.memory))
    && (th.pc.Loaded? ==> s.memory[th.pc.mbuf].done == History(7))
    && (th.pc.Worked? || th.pc.Returning? ==> s.memory[th.pc.mbuf].done == ALL_WORK)
    && (Holds(th.pc) ==> NextOnLane(s.memory[th.pc.mbuf], s.finished))
    && LogOk(s.finished)
  }

  // ---------------------------------------------------------------------------
  // Stopping
  // ---------------------------------------------------------------------------

  /** The CSD thread counts the frames it processes and stops everybody at the limit. */
  ghost predicate QuitOk(s: State)
    requires Sizes(s)
  {
    var pc := s.threads[CSD].pc;
    && s.csdCount == |s.finished| + (if pc.Worked? || pc.Returning? then 1 else 0)
    && s.csdCount <= FRAME_LIMIT
    && (s.quit ==> s.csdCount == FRAME_LIMIT)
    && (s.csdCount == FRAME_LIMIT ==> s.quit || pc.Worked?)
    && (pc.Worked? || pc.Trying? || pc.Loaded? ==> !s.quit)
    && forall t :: 0 <= t < THREADS && s.threads[t].pc.Exited? ==> s.quit
  }

  ghost predicate Inv(s: State) {
    Sizes(s) && Places(s) && Queues(s) && Workers(s) && CsdOk(s) && QuitOk(s)
  }

  lemma StartOk()
    ensures Inv(Start())
  {
    var s := Start();
    assert forall r :: 0 <= r < RINGS ==> s.rings[r] == [] && RingOk(s.rings[r], r, s.place);
    assert forall l :: 0 <= l < 4 ==> LaneCount(s.threads[CSD], l, s.got, s.finished, s.memory);
  }

  // ---------------------------------------------------------------------------
  // Places
  // ---------------------------------------------------------------------------

  /** A turn that moves no buffer. */
  lemma PlacesStay(s: State, n: State, t: nat)
    requires Sizes(s) && Sizes(n) && t < THREADS && Places(s)
    requires n.pool == s.pool && n.rings == s.rings && n.place == s.place
    requires n.threads == s.threads[t := n.threads[t]]
    requires forall id: Mbuf :: InHandOf(n.threads[t], id) == InHandOf(s.threads[t], id)
    ensures Places(n)
  {
    assert forall u :: 0 <= u < THREADS ==> HandOk(s.threads[u], u, s.place);
  }

  lemma PoolStays(pool: set<Mbuf>, place: seq<Place>, id: Mbuf, p: Place)
    requires |place| == NUM_MBUFS && PoolOk(pool, place) && place[id] != InPool && p != InPool
    ensures PoolOk(pool, place[id := p])
  {
  }

  lemma RingStays(ring: seq<Mbuf>, r: nat, place: seq<Place>, id: Mbuf, p: Place)
    requires |place| == NUM_MBUFS && RingOk(ring, r, place) && place[id] != InRing(r) && p != InRing(r)
    ensures RingOk(ring, r, place[id := p])
  {
  }

  lemma HandStays(th: Thread, t: nat, place: seq<Place>, id: Mbuf, p: Place)
    requires |place| == NUM_MBUFS && HandOk(th, t, place) && place[id] != InHand(t) && p != InHand(t)
    ensures HandOk(th, t, place[id := p])
  {
  }

  lemma HeadLeaves(ring: seq<Mbuf>, r: nat, place: seq<Place>, p: Place)
    requires |place| == NUM_MBUFS && RingOk(ring, r, place) && ring != [] && p != InRing(r)
    ensures place[ring[0]] == InRing(r)
    ensures RingOk(ring[1..], r, place[ring[0] := p])
  {
    assert ring[0] in ring;
    assert forall id: Mbuf :: id in ring <==> id == ring[0] || id in ring[1..];
  }

  lemma TailJoins(ring: seq<Mbuf>, r: nat, place: seq<Place>, id: Mbuf)
    requires |place| == NUM_MBUFS && RingOk(ring, r, place) && place[id] != InRing(r)
    ensures RingOk(ring + [id], r, place[id := InRing(r)])
  {
    assert forall i :: 0 <= i < |ring| ==> ring[i] in ring;
  }

  lemma HandTakes(th: Thread, to: Thread, t: nat, place: seq<Place>, id: Mbuf)
    requires |place| == NUM_MBUFS && HandOk(th, t, place) && !Holds(th.pc) && InHandOf(to, id)
    ensures HandOk(to, t, place[id := InHand(t)])
  {
    assert forall x: Mbuf :: !InHandOf(th, x);
  }

  lemma HandGives(th: Thread, to: Thread, t: nat, place: seq<Place>, id: Mbuf, p: Place)
    requires |place| == NUM_MBUFS && HandOk(th, t, place) && InHandOf(th, id) && !Holds(to.pc) && p != InHand(t)
    ensures place[id] == InHand(t)
    ensures HandOk(to, t, place[id := p])
  {
    assert forall x: Mbuf :: InHandOf(th, x) ==> x == id;
  }

  /** Everything but thread t, when buffer id moves between its hand and somewhere else. */
  ghost predicate OthersStay(s: State, n: State, t: nat, id: Mbuf, p: Place)
    requires Sizes(s) && Sizes(n) && t < THREADS
  {
    && n.threads == s.threads[t := n.threads[t]]
    && n.place == s.place[id := p]
    && (forall u :: 0 <= u < THREADS && u != t ==> s.place[id] != InHand(u) && p != InHand(u))
    && RealPlace(p)
  }

  lemma MovePlaces(s: State, n: State, t: nat, id: Mbuf, p: Place)
    requires Sizes(s) && Sizes(n) && t < THREADS && Places(s) && OthersStay(s, n, t, id, p)
    requires HandOk(n.threads[t], t, n.place) && PoolOk(n.pool, n.place)
    requires forall r :: 0 <= r < RINGS ==>
      (n.rings[r] == s.rings[r] && s.place[id] != InRing(r) && p != InRing(r)) || RingOk(n.rings[r], r, n.place)
    ensures Places(n)
  {
    hide PoolOk, RingOk, HandOk;
    forall r | 0 <= r < RINGS
      ensures RingOk(n.rings[r], r, n.place)
    {
      if !RingOk(n.rings[r], r, n.place) {
        RingStays(s.rings[r], r, s.place, id, p);
      }
    }
    forall u | 0 <= u < THREADS
      ensures HandOk(n.threads[u], u, n.place)
    {
      if u != t {
        HandStays(s.threads[u], u, s.place, id, p);
      }
    }
  }

  lemma PlacesTake(s: State, t: nat, r: nat)
    requires Sizes(s) && Places(s) && t < THREADS && r < RINGS && s.rings[r] != [] && !Holds(s.threads[t].pc)
    ensures s.place[s.rings[r][0]] == InRing(r)
    ensures Places(Take(s, t, r))
  {
    hide PoolOk, RingOk, HandOk;
    var n, id := Take(s, t, r), s.rings[r][0];
    HeadLeaves(s.rings[r], r, s.place, InHand(t));
    PoolStays(s.pool, s.place, id, InHand(t));
    HandTakes(s.threads[t], n.threads[t], t, s.place, id);
    MovePlaces(s, n, t, id, InHand(t));
  }

  lemma PlacesGive(s: State, t: nat, r: nat, id: Mbuf)
    requires Sizes(s) && Places(s) && t < THREADS && r < RINGS && InHandOf(s.threads[t], id)
    requires |s.rings[r]| < RING_CAPACITY
    ensures Places(Give(s, t, r, id))
  {
    hide PoolOk, RingOk, HandOk;
    var n := Give(s, t, r, id);
    HandGives(s.threads[t], n.threads[t], t, s.place, id, InRing(r));
    PoolStays(s.pool, s.place, id, InRing(r));
    TailJoins(s.rings[r], r, s.place, id);
    MovePlaces(s, n, t, id, InRing(r));
  }

  lemma PlacesAllocate(s: State, t: nat, id: Mbuf)
    requires Sizes(s) && Places(s) && t < THREADS && id in s.pool && !Holds(s.threads[t].pc)
    ensures s.place[id] == InPool
    ensures Places(Allocate(s, t, id))
  {
    hide RingOk, HandOk;
    var n := Allocate(s, t, id);
    HandTakes(s.threads[t], n.threads[t], t, s.place, id);
    MovePlaces(s, n, t, id, InHand(t));
  }

  lemma PlacesRelease(s: State, t: nat, id: Mbuf)
    requires Sizes(s) && Places(s) && t < THREADS && InHandOf(s.threads[t], id)
    ensures Places(Release(s, t, id))
  {
    hide RingOk, HandOk;
    var n := Release(s, t, id);
    HandGives(s.threads[t], n.threads[t], t, s.place, id, InPool);
    MovePlaces(s, n, t, id, InPool);
  }

  // ---------------------------------------------------------------------------
  // No enqueue fails
  // ---------------------------------------------------------------------------

  function AllMbufs(): (all: set<Mbuf>)
    ensures forall id: Mbuf :: id in all
  {
    set id: Mbuf | 0 <= id < NUM_MBUFS && IsMbuf(id)
  }

  lemma AllMbufsCount()
    ensures |AllMbufs()| == NUM_MBUFS
  {
    MbufsBelow(NUM_MBUFS);
    assert AllMbufs() == set id: Mbuf | 0 <= id < NUM_MBUFS && IsMbuf(id);
  }

  lemma {:induction false} MbufsBelow(n: nat)
    requires n <= NUM_MBUFS
    ensures |set id: Mbuf | 0 <= id < n && IsMbuf(id)| == n
    decreases n
  {
    var all := set id: Mbuf | 0 <= id < n && IsMbuf(id);
    if n == 0 {
      assert all == {};
    } else {
      MbufsBelow(n - 1);
      var last: Mbuf := n - 1;
      assert all == (set id: Mbuf | 0 <= id < n - 1 && IsMbuf(id)) + {last};
    }
  }

  /** No ring is full while some thread has a buffer in its hand, so the enqueue whose
      return code every loop ignores cannot fail. */
  lemma RoomForHand(s: State, t: nat, r: nat)
    requires Sizes(s) && Places(s) && t < THREADS && r < RINGS && Holds(s.threads[t].pc)
    ensures |s.rings[r]| < RING_CAPACITY
  {
    var id, ring := s.threads[t].pc.mbuf, s.rings[r];
    assert InHandOf(s.threads[t], id) && HandOk(s.threads[t], t, s.place) && RingOk(ring, r, s.place);
    assert id !in ring;
    AllMbufsCount();
    DistinctBound(ring, AllMbufs() - {id});
  }
}

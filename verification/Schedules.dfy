/** Schedules of the nine threads that both programs run. */
module Schedules {
  const THREADS: nat := 9

  type ThreadId = t: int | 0 <= t < THREADS

  /** The outcome of an allocation: any free buffer, or none. */
  datatype Pick<M> = Nothing | Buffer(mbuf: M)

  /** An entry of a schedule: whose turn it is, and what an allocation would find. */
  datatype Event<M> = Event(thread: ThreadId, pick: Pick<M>)
}

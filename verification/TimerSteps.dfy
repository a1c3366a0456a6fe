/**
 What the timer's lock protects, as one value, and what each critical section does to it: the set of
 queued events, the run flag, the bytes in the pipe, and the edge that each write arms.
 */
module TimerSteps {
  import opened TimeValues
  import opened Wrappers

  datatype Entry<+R> = Entry(ref: R, deadline: Timeval)
  datatype Core<R(==)> = Core(queue: set<Entry<R>>, run: bool, unread: nat, edge: bool)

  ghost predicate First<R>(queue: set<Entry<R>>, deadline: Timeval) {
    forall e :: e in queue ==> Earlier(deadline, e.deadline)
  }

  ghost predicate IsEarliest<R>(queue: set<Entry<R>>, e: Entry<R>) {
    e in queue && forall x :: x in queue ==> !Earlier(x.deadline, e.deadline)
  }

  ghost function Inserted<R>(c: Core<R>, e: Entry<R>): Core<R> { c.(queue := c.queue + {e}) }
  ghost function Signalled<R>(c: Core<R>): Core<R> { c.(unread := c.unread + 1, edge := true) }
  ghost function Cleaned<R>(c: Core<R>): Core<R> { c.(unread := 0) }

  /** A signal goes out exactly when the new event is earlier than everything queued before. */
  ghost function Added<R>(c: Core<R>, e: Entry<R>): Core<R> {
    if First(c.queue, e.deadline) then Signalled(Inserted(c, e)) else Inserted(c, e)
  }

  ghost function Stopped<R>(c: Core<R>): Core<R> { Signalled(c.(run := false)) }

  ghost function Without<R>(c: Core<R>, ref: R): Core<R> {
    c.(queue := set e | e in c.queue && e.ref != ref)
  }

  ghost function Due<R>(c: Core<R>, now: Timeval): set<Entry<R>> {
    set e | e in c.queue && Earlier(e.deadline, now)
  }

  ghost function Extracted<R>(c: Core<R>, now: Timeval): Core<R> { c.(queue := c.queue - Due(c, now)) }

  /** The deadline a timeout is computed from, if anything is queued. */
  ghost predicate WaitsFor<R>(c: Core<R>, until: Option<Timeval>) {
    if until == None then c.queue == {}
    else exists e :: e in c.queue && IsEarliest(c.queue, e) && e.deadline == until.value
  }

  /** -1 waits for a signal alone. */
  function WaitTime(until: Option<Timeval>, now: Timeval): int {
    if until == None then -1 else Timeout(until.value, now)
  }
}

/** What every interleaving of the timer's threads keeps: the lock, the wakeups, and the events. */
module TimerSafety {
  import opened TimeValues
  import opened TimerSteps
  import opened TimerProtocol
  import opened Wrappers

  // ---------- The lock ----------

  ghost predicate LoopHolds(l: Loop) {
    l.StartLocked? || l.Started? || l.TopLocked? || l.Asked? || l.Relocked? || l.Extracting? || l.Taken?
  }

  ghost predicate ClientHolds(c: Client) {
    || c.AddLocked? || c.AddInserted? || c.StopLocked? || c.StopCleared? || c.CancelLocked? || c.CancelTook?
    || c.DestroyLocked? || c.DestroyDrained? || c.Leaving?
  }

  ghost predicate LockOk(s: State) {
    && (s.holder == TheLoop <==> LoopHolds(s.loop))
    && (forall t :: s.holder == TheClient(t) <==> ClientHolds(ClientOf(s, t)))
  }

  lemma LockByClient(s: State, t: nat)
    requires LockOk(s) && Enabled(s, Go(t))
    ensures LockOk(ClientStep(s, t))
  {
    hide First, Due, Lists, Without, TakenOf, WaitsFor, WaitTime, FreshRef;
  }

  lemma LockByLoop(s: State)
    requires LockOk(s) && Enabled(s, LoopGo)
    ensures LockOk(LoopStep(s))
  {
    hide First, Due, Lists, Without, TakenOf, WaitsFor, WaitTime, FreshRef, AtRest;
  }

  lemma LockByOthers(s: State, a: Action)
    requires LockOk(s) && Enabled(s, a) && !a.Go? && !a.LoopGo?
    ensures LockOk(Do(s, a))
  {
    hide Due, Lists, WaitsFor, WaitTime, FreshRef, AtRest, ClientStep, LoopStep;
    var s' := Do(s, a);
    if a.Begin? || a.Drain? {
      forall t ensures s'.holder == TheClient(t) <==> ClientHolds(ClientOf(s', t)) {
        assert s.holder == TheClient(t) <==> ClientHolds(ClientOf(s, t));
      }
    }
  }

  lemma LockKept(s: State, a: Action)
    requires LockOk(s) && Enabled(s, a)
    ensures LockOk(Do(s, a))
  {
    hide LockOk, Enabled, ClientStep, LoopStep;
    if a.Go? {
      LockByClient(s, a.id);
    } else if a.LoopGo? {
      LockByLoop(s);
    } else {
      LockByOthers(s, a);
    }
  }

  // ---------- Wakeups ----------

  /** A wait would return at once: there is something to read and the edge is armed. */
  ghost predicate Pending(c: Core<Ref>) { c.edge && c.unread > 0 }

  /** The holder of the lock is about to write to the pipe. */
  ghost predicate Signalling(s: State) {
    s.holder.TheClient? && var c := ClientOf(s, s.holder.id); c == AddInserted(true) || c == StopCleared
  }

  ghost predicate NoneBefore(queue: set<Event>, until: Option<Timeval>) {
    forall e :: e in queue ==> until.Some? && !Earlier(e.deadline, until.value)
  }

  /** The loop has found the run flag set, and has not looked at it again. */
  ghost predicate ReliesOnRun(l: Loop) {
    || l == Started || l == Head(true) || l.TopWanted? || l.TopLocked? || l.Asked? || l.Waiting?
    || ((l.Taken? || l.Calling?) && l.run)
  }

  ghost predicate RunOk(s: State) {
    ReliesOnRun(s.loop) ==> s.core.run || Pending(s.core) || Signalling(s)
  }

  /** The timeout still covers the queue, or the wait is about to be cut short. */
  ghost predicate WaitOk(s: State) {
    s.loop.Asked? || s.loop.Waiting? ==>
      NoneBefore(s.core.queue, s.loop.until) || Pending(s.core) || Signalling(s)
  }

  /** The timeout is the one for the deadline it was computed from. */
  ghost predicate TimeoutOk(s: State) {
    s.loop.Asked? || s.loop.Waiting? ==> s.loop.timeout == WaitTime(s.loop.until, s.loop.at) != 0
  }

  lemma RunByClient(s: State, t: nat)
    requires LockOk(s) && RunOk(s) && Enabled(s, Go(t))
    ensures RunOk(ClientStep(s, t))
  {
    hide First, Due, Lists, TakenOf, WaitsFor, WaitTime, FreshRef;
  }

  lemma RunByLoop(s: State)
    requires LockOk(s) && RunOk(s) && Enabled(s, LoopGo)
    ensures RunOk(LoopStep(s))
  {
    hide First, Due, Lists, TakenOf, WaitsFor, WaitTime, FreshRef, AtRest;
  }

  lemma RunKept(s: State, a: Action)
    requires LockOk(s) && RunOk(s) && Enabled(s, a)
    ensures RunOk(Do(s, a))
  {
    hide First, Due, Lists, TakenOf, WaitsFor, WaitTime, FreshRef, AtRest, ClientStep, LoopStep;
    if a.Go? {
      RunByClient(s, a.id);
    } else if a.LoopGo? {
      RunByLoop(s);
    }
  }

  lemma TimeoutKept(s: State, a: Action)
    requires TimeoutOk(s) && Enabled(s, a)
    ensures TimeoutOk(Do(s, a))
  {
    hide First, Due, Lists, Without, TakenOf, WaitsFor, FreshRef, WaitTime;
  }

  lemma WaitByClient(s: State, t: nat)
    requires LockOk(s) && WaitOk(s) && Enabled(s, Go(t))
    ensures WaitOk(ClientStep(s, t))
  {
    hide Due, Lists, TakenOf, WaitTime, FreshRef;
  }

  lemma WaitByLoop(s: State)
    requires LockOk(s) && WaitOk(s) && Enabled(s, LoopGo)
    ensures WaitOk(LoopStep(s))
  {
    hide Due, Lists, TakenOf, WaitTime, FreshRef, AtRest;
  }

  lemma WaitKept(s: State, a: Action)
    requires LockOk(s) && WaitOk(s) && Enabled(s, a)
    ensures WaitOk(Do(s, a))
  {
    hide Due, Lists, TakenOf, WaitTime, FreshRef, AtRest, ClientStep, LoopStep;
    if a.Go? {
      WaitByClient(s, a.id);
    } else if a.LoopGo? {
      WaitByLoop(s);
    }
  }
}

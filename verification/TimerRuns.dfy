/** The timer's promises, for every run of any number of threads. */
module TimerRuns {
  import opened TimeValues
  import opened TimerSteps
  import opened TimerProtocol
  import opened TimerSafety
  import opened TimerEvents
  import opened TimerCalls
  import opened Wrappers

  // ---------- Runs ----------

  ghost predicate Inv(s: State) {
    && LockOk(s) && RunOk(s) && WaitOk(s) && TimeoutOk(s) && EventsOk(s) && DueOk(s) && AnswersOk(s) && TakesOk(s)
    && GoneOk(s)
  }

  lemma StartsOk(start: Timeval)
    ensures Inv(Initially(start))
  {
  }

  lemma StepKeeps(s: State, a: Action)
    requires Inv(s) && Enabled(s, a)
    ensures Inv(Do(s, a))
  {
    hide LockOk, RunOk, WaitOk, TimeoutOk, EventsOk, DueOk, AnswersOk, TakesOk, GoneOk, Enabled, Do;
    LockKept(s, a);
    RunKept(s, a);
    WaitKept(s, a);
    TimeoutKept(s, a);
    EventsKept(s, a);
    DueKept(s, a);
    AnswersKept(s, a);
    TakesKept(s, a);
    GoneKept(s, a);
  }

  /** The state after the first i actions. */
  ghost function At(s: State, actions: seq<Action>, i: nat): State
    requires i <= |actions|
  {
    StateAfter(s, actions[..i])
  }

  lemma {:induction false} StepAt(s: State, actions: seq<Action>, i: nat)
    requires Legal(s, actions) && i < |actions|
    ensures Enabled(At(s, actions, i), actions[i])
    ensures At(s, actions, i + 1) == Do(At(s, actions, i), actions[i])
    decreases i
  {
    hide Enabled, Do;
    if i == 0 {
      assert actions[..1][1..] == [];
      assert StateAfter(Do(s, actions[0]), actions[..1][1..]) == Do(s, actions[0]);
    } else {
      StepAt(Do(s, actions[0]), actions[1..], i - 1);
      assert actions[..i][1..] == actions[1..][..i - 1];
      assert actions[..i + 1][1..] == actions[1..][..i];
    }
  }

  lemma AtEnd(s: State, actions: seq<Action>)
    ensures At(s, actions, |actions|) == StateAfter(s, actions)
  {
    assert actions[..|actions|] == actions;
  }

  /** The invariants hold at every moment of a run. */
  lemma {:induction false} InvAt(s: State, actions: seq<Action>, i: nat)
    requires Inv(s) && Legal(s, actions) && i <= |actions|
    ensures Inv(At(s, actions, i))
    decreases i
  {
    hide Inv, Enabled, Do;
    if i > 0 {
      InvAt(s, actions, i - 1);
      StepAt(s, actions, i - 1);
      StepKeeps(At(s, actions, i - 1), actions[i - 1]);
    }
  }

  lemma RunKeeps(s: State, actions: seq<Action>)
    requires Inv(s) && Legal(s, actions)
    ensures Inv(StateAfter(s, actions))
  {
    hide Inv;
    InvAt(s, actions, |actions|);
    AtEnd(s, actions);
  }

  /**
   While the loop waits, the timeout covers everything queued and the run flag is set, or there is a
   signal to wake it, or a client that holds the lock is about to give one.
   */
  lemma NoWakeupLost(start: Timeval, actions: seq<Action>)
    requires Legal(Initially(start), actions)
    ensures var s := StateAfter(Initially(start), actions);
            s.loop.Waiting? ==>
              || (s.core.run && NoneBefore(s.core.queue, s.loop.until))
              || Pending(s.core)
              || Signalling(s)
    ensures var s := StateAfter(Initially(start), actions);
            s.loop.Waiting? && s.holder == Nobody ==>
              (s.core.run && NoneBefore(s.core.queue, s.loop.until)) || Enabled(s, Wake(true))
  {
    StartsOk(start);
    RunKeeps(Initially(start), actions);
  }

  // ---------- Critical sections ----------

  /** The steps a client takes under the lock amount to what the timer's methods do in one go. */
  lemma SectionsAmountTo(s: State, t: nat)
    ensures ClientOf(s, t).AddLocked? ==> ClientStep(ClientStep(s, t), t).core == Added(s.core, ClientOf(s, t).e)
    ensures ClientOf(s, t).StopLocked? ==> ClientStep(ClientStep(s, t), t).core == Stopped(s.core)
    ensures ClientOf(s, t).CancelLocked? ==> ClientStep(s, t).core == Without(s.core, ClientOf(s, t).ref)
    ensures forall batch :: Drained(s, t, batch).core == s.core.(queue := {})
  {
    hide First, Without, TakenOf;
  }

  // ---------- Timeouts ----------

  /** Clock readings and deadlines whose microseconds stay below a million. */
  ghost predicate Proper(a: Action) {
    && (a.Tick? ==> Normalised(a.to))
    && (a.Begin? && a.request.Add? ==> Normalised(a.request.e.deadline))
  }

  ghost predicate ProperState(s: State) {
    && Normalised(s.now)
    && (forall e :: e in s.places ==> Normalised(e.deadline))
    && (s.loop.Asked? || s.loop.Waiting? ==>
          Normalised(s.loop.at) && (s.loop.until.Some? ==> Normalised(s.loop.until.value)))
  }

  lemma ProperKept(s: State, a: Action)
    requires EventsOk(s) && ProperState(s) && Enabled(s, a) && Proper(a)
    ensures ProperState(Do(s, a))
  {
    hide Normalised, IsAt, RefsOk, NoRepeats, LoopStep, ClientStep, Due, Lists, Extraction;
    PlacesGrow(s, a);
    LoopKeepsTimes(s, a);
    if a.Ask? {
      forall e | e in s.core.queue ensures e in s.places {
        assert IsAt(s, e, Queued) by { InQueue(s, e); }
      }
    }
  }

  lemma InQueue(s: State, e: Event)
    requires e in s.core.queue
    ensures IsAt(s, e, Queued)
  {
  }

  lemma LoopKeepsTimes(s: State, a: Action)
    requires Enabled(s, a)
    ensures Do(s, a).now == if a.Tick? then a.to else s.now
    ensures var l := Do(s, a).loop;
            l.Asked? || l.Waiting? ==>
              if a.Ask? then l.at == s.now && l.until == a.until
              else (s.loop.Asked? || s.loop.Waiting?) && l.at == s.loop.at && l.until == s.loop.until
  {
    hide First, Due, Lists, WaitsFor, WaitTime, FreshRef, ClientStep;
    if a.Go? {
      ClientKeepsLoop(s, a.id);
    }
  }

  lemma ClientKeepsRun(s: State, t: nat)
    ensures ClientStep(s, t).core.run ==> s.core.run
  {
    hide First, TakenOf;
  }

  lemma {:induction false} ProperRun(s: State, actions: seq<Action>)
    requires Inv(s) && ProperState(s) && Legal(s, actions)
    requires forall i :: 0 <= i < |actions| ==> Proper(actions[i])
    ensures ProperState(StateAfter(s, actions))
    decreases actions
  {
    hide LockOk, RunOk, WaitOk, TimeoutOk, EventsOk, DueOk, AnswersOk, TakesOk, GoneOk, Enabled, Do;
    hide ProperState, Proper;
    if actions != [] {
      StepKeeps(s, actions[0]);
      ProperKept(s, actions[0]);
      ProperRun(Do(s, actions[0]), actions[1..]);
    }
  }

  /** Where nobody signals, a wait ends less than a millisecond after every queued deadline. */
  lemma NoOversleep(start: Timeval, actions: seq<Action>, e: Event)
    requires Legal(Initially(start), actions)
    requires Normalised(start) && forall i :: 0 <= i < |actions| ==> Proper(actions[i])
    requires var s := StateAfter(Initially(start), actions);
             s.loop.Waiting? && !Pending(s.core) && !Signalling(s) && e in s.core.queue
    ensures var l := StateAfter(Initially(start), actions).loop;
            0 < l.timeout && Micros(l.at) + 1000 * l.timeout < Micros(e.deadline) + 1000
  {
    hide Micros, Timeout, IsAt, LockOk, RunOk, DueOk, AnswersOk, TakesOk, GoneOk;
    StartsOk(start);
    RunKeeps(Initially(start), actions);
    ProperRun(Initially(start), actions);
    var s := StateAfter(Initially(start), actions);
    var l := s.loop;
    InQueue(s, e);
    if Earlier(l.until.value, l.at) {
      PastMeansZero(l.until.value, l.at);
    }
    TimeoutNeverLate(l.until.value, l.at);
    CompareChronological(e.deadline, l.until.value);
  }

  lemma PastMeansZero(deadline: Timeval, now: Timeval)
    requires Earlier(deadline, now)
    ensures Timeout(deadline, now) == 0
  {
  }

  ghost function Requested(actions: seq<Action>): set<Event> {
    if actions == [] then {}
    else
      (if actions[0].Begin? && actions[0].request.Add? then {actions[0].request.e} else {}) + Requested(actions[1..])
  }

  lemma PlacesStay(s: State, t: nat)
    requires PlacesOk(s)
    ensures ClientStep(s, t).places.Keys == s.places.Keys
  {
    hide First, Without, Logged;
    forall e | e in s.core.queue ensures e in s.places {
      assert IsAt(s, e, Queued);
    }
    var c := ClientOf(s, t);
    if c.AddLocked? {
      assert IsAt(s, c.e, Adding(t));
    } else if c.CancelReleased? && c.taken != None {
      assert IsAt(s, c.taken.value, Cancelling(t));
    } else if c.Destroying? && c.batch != [] {
      assert IsAt(s, c.batch[0], Dropping(t));
    }
  }

  lemma PlacesGrow(s: State, a: Action)
    requires EventsOk(s) && Enabled(s, a)
    ensures Do(s, a).places.Keys == s.places.Keys + Requested([a])
  {
    hide Lists, WaitsFor, WaitTime, FreshRef, AtRest, RefsOk, NoRepeats, Logged, Calls, DropsOk, ClientStep;
    forall e | e in s.core.queue ensures e in s.places {
      assert IsAt(s, e, Queued);
    }
    if a.Go? {
      PlacesStay(s, a.id);
    } else if a.LoopGo? && s.loop.Calling? && s.loop.batch != [] {
      assert IsAt(s, s.loop.batch[0], Ready);
    }
  }

  lemma {:induction false} PlacesAreRequests(s: State, actions: seq<Action>)
    requires Inv(s) && Legal(s, actions)
    ensures StateAfter(s, actions).places.Keys == s.places.Keys + Requested(actions)
    decreases actions
  {
    hide LockOk, RunOk, WaitOk, TimeoutOk, EventsOk, DueOk, AnswersOk, TakesOk, GoneOk, Enabled, Do;
    if actions != [] {
      var a := actions[0];
      PlacesGrow(s, a);
      StepKeeps(s, a);
      PlacesAreRequests(Do(s, a), actions[1..]);
      assert Requested([a]) + Requested(actions[1..]) == Requested(actions) by {
        assert [a][1..] == [];
      }
    }
  }

  /**
   Every event ever handed in is, at each moment, being added, queued, extracted, being cancelled, being
   dropped or called back, in exactly one of these; no list holds it twice, so it is called back once
   at most.
   */
  lemma SettledOnce(start: Timeval, actions: seq<Action>)
    requires Legal(Initially(start), actions)
    ensures var s := StateAfter(Initially(start), actions);
            && (forall e :: e in Requested(actions) <==> exists p :: IsAt(s, e, p))
            && (forall e, p, q :: IsAt(s, e, p) && IsAt(s, e, q) ==> p == q)
            && NoRepeats(Batch(s.loop)) && (forall t :: NoRepeats(Drops(ClientOf(s, t)))) && NoRepeats(Calls(s.log))
  {
    hide IsAt, Requested, NoRepeats, LockOk, RunOk, WaitOk, TimeoutOk, DueOk, AnswersOk, TakesOk, GoneOk;
    StartsOk(start);
    RunKeeps(Initially(start), actions);
    PlacesAreRequests(Initially(start), actions);
    var s := StateAfter(Initially(start), actions);
    forall e ensures e in Requested(actions) <==> exists p :: IsAt(s, e, p) {
      assert e in Requested(actions) <==> e in s.places;
      if e in s.places {
        assert IsAt(s, e, s.places[e]);
      }
    }
  }

  /** With no thread inside, every event ever handed in is queued or was called back, not both. */
  lemma SettledAtRest(start: Timeval, actions: seq<Action>)
    requires Legal(Initially(start), actions) && AtRest(StateAfter(Initially(start), actions))
    ensures var s := StateAfter(Initially(start), actions);
            Requested(actions) == s.core.queue + Logged(s.log) && s.core.queue !! Logged(s.log)
  {
    hide Requested, NoRepeats, Logged;
    SettledOnce(start, actions);
    var s := StateAfter(Initially(start), actions);
    forall e ensures e in Requested(actions) <==> e in s.core.queue + Logged(s.log) {
      assert IsAt(s, e, Queued) <==> e in s.core.queue;
      assert IsAt(s, e, Called) <==> e in Logged(s.log);
    }
    forall e ensures !(e in s.core.queue && e in Logged(s.log)) {
      assert IsAt(s, e, Queued) <==> e in s.core.queue;
      assert IsAt(s, e, Called) <==> e in Logged(s.log);
    }
  }

  /**
   A callback that the loop makes comes after the deadline, one that destroying makes when the timer is
   given up.  For every reference there are as many callbacks made as cancelled as cancellations that
   said they hit and cancellations that have yet to say so.
   */
  lemma CalledFaithfully(start: Timeval, actions: seq<Action>)
    requires Legal(Initially(start), actions)
    ensures var s := StateAfter(Initially(start), actions);
            && (forall e :: Fired(e) in s.log ==> Earlier(e.deadline, s.now))
            && (forall e :: Dropped(e) in s.log ==> s.gone)
            && (forall ref :: |HitsOf(s.answers, ref)| + |ReturningOf(s.clients, ref)| == |CancelledOf(s.log, ref)|)
  {
    hide LockOk, RunOk, WaitOk, TimeoutOk, EventsOk, TakesOk, HitRefs, CancelledRefs, InFlight;
    hide HitsOf, ReturningOf, CancelledOf;
    StartsOk(start);
    RunKeeps(Initially(start), actions);
    var s := StateAfter(Initially(start), actions);
    forall ref ensures |HitsOf(s.answers, ref)| + |ReturningOf(s.clients, ref)| == |CancelledOf(s.log, ref)| {
      HitsCounted(s.answers, ref);
      ReturningCounted(s.clients, ref);
      CancelledCounted(s.log, ref);
      assert (HitRefs(s.answers) + InFlight(s.clients))[ref] == CancelledRefs(s.log)[ref];
    }
  }

  lemma {:induction false} BatchRuns(s: State, actions: seq<Action>, i: nat, j: nat)
    requires Legal(s, actions) && i <= j <= |actions|
    requires forall k :: i <= k < j ==> !actions[k].Extract?
    ensures TakesFromFront(At(s, actions, i), At(s, actions, j))
    decreases j
  {
    hide Legal, Enabled, Do, TakesFromFront;
    var from := At(s, actions, i);
    if i == j {
      assert from.log == from.log + [];
      NothingFired(from, from, []);
    } else {
      BatchRuns(s, actions, i, j - 1);
      StepAt(s, actions, j - 1);
      FireStep(At(s, actions, j - 1), actions[j - 1]);
      FireMore(from, At(s, actions, j - 1), At(s, actions, j));
    }
  }

  lemma Extracts(s: State, batch: seq<Event>)
    requires Enabled(s, Extract(batch))
    ensures Do(s, Extract(batch)).log == s.log && Batch(Do(s, Extract(batch)).loop) == batch
    ensures s.core.run ==> Lists(batch, Due(s.core, s.now))
  {
    hide Lists;
  }

  /**
   The loop calls a batch back in its own order, from the first event on: what it has called back since
   it extracted the batch, and then what it has yet to call back, is the batch.  Back at its head it has
   called back exactly the events that were due, earliest first.
   */
  lemma CalledInOrder(s: State, actions: seq<Action>, i: nat, j: nat, batch: seq<Event>)
    requires Legal(s, actions) && i < j <= |actions| && actions[i] == Extract(batch)
    requires forall k :: i < k < j ==> !actions[k].Extract?
    ensures var at, to := At(s, actions, i), At(s, actions, j);
            && at.log <= to.log && Fires(to.log[|at.log|..]) + Batch(to.loop) == batch
            && (at.core.run && to.loop.Head? ==> Lists(Fires(to.log[|at.log|..]), Due(at.core, at.now)))
  {
    hide Legal, Enabled, Do, Lists, Due, Fires;
    StepAt(s, actions, i);
    Extracts(At(s, actions, i), batch);
    BatchRuns(s, actions, i + 1, j);
    var at, to := At(s, actions, i), At(s, actions, j);
    assert Batch(to.loop) == [] ==> Fires(to.log[|at.log|..]) + Batch(to.loop) == Fires(to.log[|at.log|..]);
  }

  // ---------- No deadlock ----------

  lemma {:induction false} EarliestExists(queue: set<Event>) returns (e: Event)
    requires queue != {}
    ensures IsEarliest(queue, e)
    decreases |queue|
  {
    e :| e in queue;
    if queue != {e} {
      var rest := queue - {e};
      assert queue == rest + {e};
      var r := EarliestExists(rest);
      if Earlier(r.deadline, e.deadline) {
        e := r;
      }
    }
  }

  lemma {:induction false} InOrderExists(due: set<Event>) returns (batch: seq<Event>)
    ensures Lists(batch, due)
    decreases |due|
  {
    batch := [];
    if due != {} {
      var e := EarliestExists(due);
      assert due == (due - {e}) + {e};
      var rest := InOrderExists(due - {e});
      batch := [e] + rest;
    }
  }

  lemma CanAsk(c: Core<Ref>) returns (until: Option<Timeval>)
    ensures WaitsFor(c, until)
  {
    until := None;
    if c.queue != {} {
      var e := EarliestExists(c.queue);
      until := Some(e.deadline);
    }
  }

  ghost predicate OfTheLoop(a: Action) { a.LoopGo? || a.Ask? || a.Wake? || a.Extract? }

  /** The next step of a client that need not wait for the lock. */
  lemma ClientCanGo(s: State, t: nat) returns (next: Action)
    requires ClientOf(s, t) != Idle && !WantsLock(ClientOf(s, t))
    ensures Enabled(s, next) && (next.Go? || next.Drain?) && next.id == t
  {
    if ClientOf(s, t).DestroyLocked? {
      var batch := InOrderExists(s.core.queue);
      next := Drain(t, batch);
    } else {
      next := Go(t);
    }
  }

  /** While any thread is inside, one of them can take a step: the loop, or the holder of the lock, or a client. */
  lemma NoDeadlock(start: Timeval, actions: seq<Action>) returns (next: Action)
    requires Legal(Initially(start), actions) && !AtRest(StateAfter(Initially(start), actions))
    ensures var s := StateAfter(Initially(start), actions);
            && Enabled(s, next) && (OfTheLoop(next) || next.Go? || next.Drain?)
            && (s.loop != Out ==> OfTheLoop(next) || s.holder == TheClient(next.id))
  {
    hide RunOk, WaitOk, TimeoutOk, EventsOk, DueOk, AnswersOk, TakesOk, GoneOk, WaitsFor, Lists;
    StartsOk(start);
    RunKeeps(Initially(start), actions);
    var s := StateAfter(Initially(start), actions);
    if s.loop.Waiting? {
      next := Wake(false);
    } else if s.loop.TopLocked? {
      var until := CanAsk(s.core);
      next := Ask(until);
    } else if s.loop.Extracting? {
      var batch := InOrderExists(Due(s.core, s.now));
      next := Extract(if s.core.run then batch else []);
    } else if s.holder.TheClient? && (s.loop.Out? || s.loop.StartWanted? || s.loop.TopWanted? || s.loop.Woken?) {
      assert ClientHolds(ClientOf(s, s.holder.id));
      next := ClientCanGo(s, s.holder.id);
    } else if s.loop.Out? {
      var t :| ClientOf(s, t) != Idle;
      assert !ClientHolds(ClientOf(s, t));
      next := Go(t);
    } else {
      next := LoopGo;
    }
  }
}
